# Verified model of fmesh-cli's protocols

fmesh-cli joins Meshtastic radios, text windows, a web interface and other fmesh-cli peers.
This project models the parts of it where a mistake would be silent (the replication of messages,
positions and telemetry between peers, the framed byte stream underneath, the HTTP connection and
its event stream, the window index, packet bookkeeping, line wrapping and the device-spec text
form) and proves what they guarantee over all inputs, all runs and all interleavings.

Every component has the same shape. A few functions say what one step does; a class with the
source's fields, or a method with the source's loops, is proved to do exactly that step; lemmas
then prove what any run of steps gives. `dafny verify dfyconfig.toml` checks everything.

## What is modelled

- `StreamFraming`: the five-state, resynchronising parser that reads `0x94 marker length payload`
  frames out of arbitrary reads, against a reference parser that sees the whole stream at once.
  `StreamStalls`: which streams can leave their last frame undelivered.
- `Tables`, `DbSync`, `ReplicatedTables`, `StoredRows`: the replicated tables, the queries on them, and
  what a peer does with an inventory, a request and a data payload, down to the columns. `TwoWaySync`:
  two peers of which each has rows newer than the other's.
- `MeshNetwork`, `FloodTermination`, `EventualDelivery`, `FloodReach`: any number of peers joined by
  FIFO links, every payload sent to every link, whatever telemetry is on its way; where a pushed row
  gets to, when the pushing stops, both together, and exactly whom a push reaches.
- `PagedWalk`, `CutWalks`: reading a table page by page behind a strict timestamp cursor, as a walk
  that depends on the table alone, and what it achieves read off the table.
- `CatchUp`, `SyncRuns`, `SyncLimits`, `CatchUpConditions`: a peer that leads and a peer that lags,
  with all three tables, repeated packet ids and telemetry echoes. Every run of overlapping syncs
  follows the walks; exactly when the lagging peer can get every row and when the exchange falls
  quiet, first as a statement on the walks, then as conditions on the leading peer's rows.
  `CatchUpValues`: exactly which telemetry rows come to their latest state. `PairNetwork`: these runs
  are runs of the mesh network with one connection. `StrayPages`: what a page does to a peer it was
  not made for.
- `HttpRequestReader`, `SseStream`, `EventStream`: request assembly up to the connection's end; the
  write side at the granularity of its lock, with concurrent broadcasters, and exactly when it closes
  the connection; and the events a peer reads out of it,
  interpreted as in section 9.2 of the WHATWG HTML standard (`LineEndsAlike` for its line ends).
- `WindowIndex`, `WindowManager`: the window list, the key-to-position map and the focus.
- `PacketTracking`: the dedup window, the packet id generator, the table of awaited
  acknowledgements.
- `WrapText`, `WrapTextProperties`: greedy line wrapping by bytes with UTF-8 characters kept whole.
- `DeviceSpec`: the parser and the printer of device specs.
- `Bytes`, `Strings`, `Options`: shared helpers.

## What turned out not to hold

Each of these has a lemma that says exactly when the code does meet the property, most of them also
one with a concrete input or run that fails.

- A complete frame can stay undelivered until more bytes come, because the parser only looks at four
  or more buffered bytes (`GuardDelaysShortFrame`). Every chunking of a stream delivers all its
  frames if and only if it has none, or at least four bytes follow the header of its last one, or
  that one is empty and either three bytes follow it or what comes right before it is not a skipped
  byte other than a start byte (`DeliversExactly`).
- Noise that looks like a header swallows a real frame (`NoiseCanSwallowFrame`). Noise leaves whatever
  follows it intact if and only if no start byte in it is followed by a marker (`HarmlessExactly`).
- Pushes of telemetry, and of messages with packet id 0, go back and forth between two peers for
  ever; a flood dies out exactly when neither is on its way (`EchoSurvives`, `FloodDiesOutExactly`).
- A message stored without being pushed (a text sent on a local radio, or one heard twice;
  `src/mesh/mesh_service.cpp:490-501` and `:1149-1196`) makes its holder a wall for the same packet id
  coming from elsewhere (`QuietHolderBlocksFlood`). Once no copy of a key is on its way a peer holds
  it if and only if it held it quietly or a path from a peer that pushed it has no quiet holder
  before its end (`ReachedExactly`); for one push that is known before it is made
  (`OnePushReaches`).
- A packet that a second radio hears is stored a second time, and paging does not survive that: a
  lagging peer whose next page holds nothing new, with more behind it, asks for the same page for
  ever (`RoundRepeats`, `HeardTwiceNeverEnds`). With distinct timestamps the lagging peer can get
  every row if and only if no twenty consecutive messages repeat earlier packet ids before a new one,
  and the exchange falls quiet, telemetry echoes aside, if and only if no twenty do so before any
  other message (`RepeatsDecide`).
- Catch-up cursors are strict, so of two rows with one timestamp on either side of a page boundary
  the second is lost for good (`BurstIsNeverComplete`). With one row a packet id the lagging peer can
  get every row if and only if in no table a page boundary falls between two such rows
  (`TiesDecide`). Without either assumption the condition is that the walks through the leading
  peer's tables cover them (`CatchUpExactly`) and do not stand still with more than a page behind
  them (`SettlesExactly`). Rows with timestamp 0 are never on any page
  (`TimelessRowsAreNeverPaged`).
- A telemetry row that is given more metrics after it was paged stays as it was at the lagging peer,
  though both take their tables for equal (`LateMetricsNeverArrive`). The lagging peer can get every
  row in its latest state if and only if it can get every key and none of the rows it starts with
  differs (`MatchExactly`).
- A page goes to every link, also to peers further behind, and takes what they lacked before it out of
  their reach (`FirstIsMissed`): exactly when it brings them news and they lack a message at or before
  the cursors it was made for (`StrayPageExactly`). With distinct timestamps and one row a packet id,
  any peer can get every message if and only if it lacks none older than its newest (`GapsExactly`).
- A live push that is newer than everything else overtakes catch-up: the peer that takes it gets every
  message if and only if the pushed one was the only one it lacked (`LivePushOvertakes`).
- A complete HTTP request is assembled under every chunking exactly when its header block, blank
  line included, is at most 65537 bytes (`AssembledExactlyWithinLimit`): the size test runs only
  while no blank line has been found.
- A wrapped line may be wider than asked, exactly when some character is longer than the width
  (`WidthExactly`).
- A device spec with an empty pin comes back with the default pin (`RoundTripExactly`,
  `EmptyPinIsLost`).
- The packet id generator does give out 0 (`ZeroIsGivenOut`), which `send_text` also returns for
  failure: exactly when the count of calls wraps at 1024 and the random source returns twenty-two
  zero bits (`ZeroExactly`).
- A disconnect drops the messages of a radio that wait for an acknowledgement, and their rows stay
  pending for good (`DisconnectLosesAck`, `SettledRowsStay`).
- An event stream gives frames up: exactly those whose broadcaster finds the stream not up, or whose
  append finds a mebibyte in the output buffer (`EveryInterleavingDelivers`).
- The last test of `close_window` (`src/tui/window_manager.cpp:507-509`) never fires while the
  index is valid.

## Model

| member | source | states |
|---|---|---|
| StreamFraming.EncodeFrame | src/stream/stream_client.cpp:508-522 | A payload of at most 65000 bytes becomes start byte, marker, big-endian length and payload; a longer one becomes nothing, so no length is ever truncated |
| StreamFraming.TurnSound | src/stream/stream_client.cpp:411-492 | One turn of the inner loop, with its fall-through states, delivers exactly the frames that the whole-stream parser would read off the bytes it consumes, whatever bytes follow, and makes progress even on an empty payload |
| StreamFraming.SkipGarbage | src/stream/stream_client.cpp:412-428 | Dropping everything before the first start byte never changes what the stream means |
| StreamFraming.DrainSound | src/stream/stream_client.cpp:411-492 | The inner loop ends, and what it delivers plus what its saved state still means is what the bytes meant before |
| StreamFraming.FeedAllSound | src/stream/stream_client.cpp:358-493 | The same for any number of reads of any sizes |
| StreamFraming.PendingFrames | src/stream/stream_client.cpp:411-492 | Between reads at most one complete frame is undelivered, with a payload of at most three bytes, and exactly when the parser is stalled by the four-byte guard |
| StreamFraming.ChunkIndependence | src/stream/stream_client.cpp:408-492 | However a stream is cut into reads, the frames delivered are those of the batch parse of the whole stream, all of them unless the four-byte guard holds one short frame back |
| StreamFraming.GuardDelaysShortFrame | src/stream/stream_client.cpp:411 | A three-byte payload that arrives after its header is delivered only when another byte comes |
| StreamFraming.NoRunOverflows | src/stream/stream_client.cpp:415-426 | In every run of reads of at most 65533 bytes, hence of 1024 or 4096, the branch that discards an overflowing buffer is never taken |
| StreamFraming.RoomyNeverOverflows | src/stream/stream_client.cpp:415-426 | No turn of the inner loop reaches the discarding branch from a buffer within the bound |
| StreamFraming.WireRoundTrip | src/stream/stream_client.cpp:508-522 | Framed payloads with harmless noise between them are read back exactly and in order from the whole stream |
| StreamFraming.MarkersExactly | src/stream/stream_client.cpp:431-441 | A framed payload is read back if and only if its marker is 0xC3, 0xD0 or 0xD1 |
| StreamFraming.RoundTripUnderChunking | src/stream/stream_server.cpp:182-197 | The same through the incremental parser under any chunking; at most the last frame is still held back, and then its payload has at most three bytes |
| StreamFraming.NoiseCanSwallowFrame | src/stream/stream_client.cpp:431-451 | One input: a start byte followed by a marker in the noise swallows the frame behind it |
| StreamFraming.HarmlessExactly | src/stream/stream_client.cpp:411-451 | Noise leaves every continuation that starts with a start byte intact if and only if no start byte in the noise is immediately followed by a marker |
| StreamStalls.DeliversExactly | src/stream/stream_client.cpp:411-492 | A condition on the stream alone: every chunking of it delivers all its frames if and only if it has none, or at least four bytes follow the header of the last one, or that one is empty and not right behind noise or with three bytes behind it |
| StreamStalls.StallDelays | src/stream/stream_client.cpp:411 | Every other stream has a cut into two reads that leaves its last frame undelivered |
| StreamFraming.StreamReader.Resync | src/stream/stream_client.cpp:412-429 | Looking for the start byte on the mutable buffer does what the specification's first state does: with no start byte in it the last byte alone is kept, and none of more than 65536 |
| StreamFraming.StreamReader.TakeStart2 | src/stream/stream_client.cpp:430-441 | A byte that is no marker costs one byte and a new search; a marker is remembered |
| StreamFraming.StreamReader.TakeLength | src/stream/stream_client.cpp:442-451 | The two length bytes are taken as they come, across reads |
| StreamFraming.StreamReader.TakePayload | src/stream/stream_client.cpp:452-491 | A complete payload is emitted with its marker, once |
| StreamFraming.StreamReader.ParseBuffer | src/stream/stream_client.cpp:411-492 | The imperative inner loop terminates and computes the drained state and frames |
| StreamFraming.StreamReader.Receive | src/stream/stream_server.cpp:374-441 | One read: the new state and the frames emitted are those of the specification, and nothing is discarded when the read is at most 65533 bytes |
| StreamFraming.StreamReader.ReadLoop | src/stream/stream_client.cpp:358-493 | A whole connection: the outer loop emits the frames of the specification's run, so chunk independence holds of the object |
| Tables.Database.InsertMessage | src/store/database.cpp:658-689 | Appends one row, whose rowid finds it again; nothing else changes |
| Tables.Database.UpdateAckState | src/store/database.cpp:691-701 | Changes one column of one row, and nothing for an unknown rowid |
| Tables.Database.FindByPacketId | src/store/database.cpp:740-753 | Finds a row exactly when there is one, and then the newest |
| Tables.Database.InsertLocation | src/store/database.cpp:762-790 | Reports and stores a row exactly when its device, node and time are not there yet |
| Tables.Database.InsertTelemetry | src/store/database.cpp:973-1082 | Fills in the row of its key or adds one, and reports true either way |
| Tables.RowsAfterExact | src/store/database.cpp:834-848 | The page query returns exactly the rows newer than the cursor, with their multiplicities, oldest first |
| Tables.MaxTsBounds | src/store/database.cpp:821-832 | The maximum bounds every timestamp and is one of them, or zero for an empty table |
| Tables.RowsAfterLater | src/store/database.cpp:864-884 | A later cursor drops rows of the earlier result and keeps the others in order |
| DbSync.DbSyncManager.InitiateSync | src/mesh/db_sync.cpp:38-45 | Sends the inventory of the tables as they are |
| DbSync.DbSyncManager.HandleInventory | src/mesh/db_sync.cpp:126-156 | Sends what `OnInventory` says, which `InventoryBothWays` settles for any two peers: a request, a page, both or neither; the tables stay |
| DbSync.DbSyncManager.HandleRequest | src/mesh/db_sync.cpp:158-251 | Sends nothing, or one page of at most twenty rows a table with a flag telling whether any table had more |
| DbSync.DbSyncManager.StoreMessages | src/mesh/db_sync.cpp:256-300 | Stores the messages whose packet id is zero or unknown, later ones checked against earlier ones, and pushes just those |
| DbSync.DbSyncManager.StoreLocations | src/mesh/db_sync.cpp:302-323 | Stores the positions whose key is unknown and pushes just those |
| DbSync.DbSyncManager.StoreTelemetry | src/mesh/db_sync.cpp:325-366 | Merges every telemetry row and pushes every one, also those already known |
| DbSync.DbSyncManager.HandleData | src/mesh/db_sync.cpp:253-371 | Tables and payloads sent afterwards, with a new inventory at the end exactly when there was more |
| DbSync.DbSyncManager.HandleSyncPayload | src/mesh/db_sync.cpp:13-36 | Dispatch: the whole new state and everything sent, for each kind of payload |
| TwoWaySync.InventoryBothWays | src/mesh/db_sync.cpp:126-156 | For any two tables: an inventory is answered with a request carrying the own maxima if and only if the other side has a row newer than all of the own table's, and also with a page of the rows behind the other's maxima, all columns but two, if and only if this side has one |
| TwoWaySync.RequestAnswered | src/mesh/db_sync.cpp:158-251 | The same page answers a request, and nothing is sent when there are no newer rows |
| TwoWaySync.PageOfTwenty | src/mesh/db_sync.cpp:163-182 | A page is the twenty oldest of the newer rows or all of them, and the flag tells which |
| TwoWaySync.RowsGoBothWays | src/mesh/db_sync.cpp:126-182 | Two peers, each with newer rows than the other in some table: after one inventory and what follows, each has taken in the other's page |
| StoredRows.DataIsStored | src/mesh/db_sync.cpp:256-323 | The rows a payload adds to the tables of messages and positions are, in order and column by column, those whose key is neither in the table nor earlier in the payload |
| StoredRows.DataIsForwarded | src/mesh/db_sync.cpp:253-371 | What is sent on is one payload for each row stored, messages without their reception details, then positions, then every telemetry row, and last, exactly if there was more, the inventory of the new tables |
| ReplicatedTables.NewMessagesFacts | src/mesh/db_sync.cpp:256-282 | What gets stored had no row before, comes from the batch, and afterwards every nonzero id of the batch has a row |
| ReplicatedTables.NewLocationsFacts | src/mesh/db_sync.cpp:302-320 | The same for positions and their keys |
| ReplicatedTables.MessageRowCount | src/mesh/db_sync.cpp:256-282 | The number of rows for a nonzero packet id after a batch: unchanged if there was one, else one if the batch has it |
| ReplicatedTables.LocationRowCount | src/store/database.cpp:762-790 | The same for a position key |
| ReplicatedTables.NoSecondRow | src/mesh/db_sync.cpp:253-323 | No run of incoming data ever adds a second row for a nonzero packet id or for a position key, and none removes one |
| ReplicatedTables.StoreReading | src/store/database.cpp:973-1082 | One telemetry report keeps one row per key, each metric being the last value that was present in a report for that key |
| ReplicatedTables.TelemetryHoldsLastValues | src/mesh/db_sync.cpp:325-366 | The same after any run of incoming data |
| MeshNetwork.HandlingSpreadsKeys | src/mesh/db_sync.cpp:253-323 | Handling data loses no key, takes in every key it carries, and sends on every key it did not have |
| MeshNetwork.StepCovers | src/mesh/mesh_service.cpp:1390-1405 | The flood invariant: for each link, every key its sender holds and has pushed is at the receiver or on its way there; every kind of step keeps it |
| MeshNetwork.FloodCoverage | src/mesh/db_sync.cpp:256-323 | In every run, syncs and telemetry included, once no copy of a key is on its way, the key held at one end of a path of links is held at the other, unless a peer on the path holds it without ever having pushed it |
| MeshNetwork.EveryPushReachesEveryPeer | src/mesh/mesh_service.cpp:1244-1245 | On a connected network, in every run, once no copy of a key that some peer stored and pushed is on its way every peer holds it, under the same proviso |
| MeshNetwork.QuietHolderBlocksFlood | src/mesh/mesh_service.cpp:489-501 | The proviso is needed: three peers in a line, a quiet row in the middle, and the message never arrives |
| FloodReach.ReachedExactly | src/mesh/db_sync.cpp:256-323 | In every run without syncs, whatever telemetry and other keys are on their way, once no copy of a key is, a peer holds it if and only if it holds it quietly or some path of links from a peer that pushed it has no quiet holder before its end |
| FloodReach.OnePushReaches | src/mesh/mesh_service.cpp:1244-1245 | One push into any network of pushes with no copy of it on its way, in any order of deliveries: once none is again, the peers that have it are those that had it and those that a path of peers without it leads to |
| MeshNetwork.EveryRowIsTraced | src/mesh/db_sync.cpp:60-80 | In every run, every replicated message agrees with some locally stored row on device, window, direction, sender, target, channel, text, time and packet id |
| MeshNetwork.TelemetryIsPushed | src/mesh/mesh_service.cpp:1119-1139 | A local reading is merged into the row of its key, last present values, and goes out on every link as it came |
| MeshNetwork.PositionIsPushed | src/mesh/mesh_service.cpp:1088-1100 | A local position is stored once and goes out on every link even when it was known |
| MeshNetwork.AckStaysLocal | src/mesh/mesh_service.cpp:1246-1254 | An acknowledgement changes one column of one row of one peer, and nothing is sent |
| FloodTermination.GuardedHandling | src/mesh/db_sync.cpp:256-366 | A peer sends exactly as many pushes that are no echoes as it had keys missing and now has |
| FloodTermination.DeliveryPotential | src/mesh/mesh_service.cpp:1390-1405 | Each delivery lowers payloads on their way plus copies still owed by exactly one, and by nothing when it is an echo |
| FloodTermination.FloodConservesPotential | src/mesh/db_sync.cpp:256-323 | In every order of deliveries, those that are no echoes and what is left of the potential add up to the potential at the start |
| FloodTermination.FloodSettles | src/mesh/db_sync.cpp:256-366 | In any network of pushes some number bounds, over all orders, the deliveries that are not of telemetry or messages with id 0 alone |
| FloodTermination.EchoIsAnswered | src/mesh/db_sync.cpp:325-366 | Handling telemetry or a message without an id always sends such a payload back |
| FloodTermination.EchoSurvives | src/store/database.cpp:1049-1051 | Whatever is delivered, such a payload never goes away |
| FloodTermination.FloodDiesOutExactly | src/mesh/db_sync.cpp:260-261 | A flood of pushes has a bound on its deliveries if and only if no telemetry and no message with id 0 is on its way |
| EventualDelivery.StepPlain | src/mesh/db_sync.cpp:253-366 | As long as no sync is started, every payload on its way is a push or a last page |
| EventualDelivery.RunThenServe | src/mesh/mesh_service.cpp:1390-1405 | Delivering in any order after a run is one longer run, so what holds of runs holds of it |
| EventualDelivery.Finish | src/mesh/db_sync.cpp:256-366 | Deliveries can always go on until only echoes are on their way |
| EventualDelivery.PushesEndUpEverywhere | src/mesh/db_sync.cpp:256-323 | On a connected network, after any run without syncs, telemetry included: the deliveries that are no echoes are bounded in every order, every order can be continued until no copy of a pushed key is on its way, and whenever none is every peer holds the key, under the proviso on quiet holders |
| PagedWalk.AdvanceAdds | src/store/database.cpp:834-848 | A page adds as many keys as it has rows that are new, and a page without any changes neither keys nor cursor |
| PagedWalk.WalkArrives | src/mesh/db_sync.cpp:158-182 | Reading page after page gets to its limit after at most as many pages as there are keys to come |
| PagedWalk.Overtaken | src/store/database.cpp:837-838 | A key all of whose rows are behind the cursor is on no later page |
| CatchUp.AskAnswered | src/mesh/db_sync.cpp:126-182 | The leading peer answers cursors with the same page whether they came as inventory or as request |
| CatchUp.AnnounceAnswered | src/mesh/db_sync.cpp:136-145 | The lagging peer answers an inventory with a request from its maxima, or with nothing when it lacks nothing newer |
| CatchUp.PageHandled | src/mesh/db_sync.cpp:253-371 | A page for any cursors that the peer's differing telemetry rows are not newer than: it takes in exactly what is new to it, pushes that and every telemetry row back, and sends a new inventory exactly when there was more |
| CatchUp.PageTaken | src/mesh/db_sync.cpp:253-366 | A page for any cursors, whoever it was made for: the peer still has only rows of the leading peer's, telemetry in part or in full, and has taken in the messages it did not have |
| CatchUp.NewPageMarks | src/mesh/db_sync.cpp:253-323 | A page for its own maxima takes the lagging peer one step along the walk in each table |
| CatchUp.OldPageMarks | src/mesh/db_sync.cpp:259-282 | A page of a round already overtaken changes nothing and has no news to push |
| CatchUp.PushesAreStale | src/mesh/db_sync.cpp:259-320 | What the lagging peer pushes back of the leading peer's rows changes nothing there |
| CatchUp.EchoReturned | src/mesh/db_sync.cpp:325-366 | A telemetry row the peer has already changes nothing and is sent back |
| SyncRuns.MoveKeepsSyncing | src/mesh/db_sync.cpp:126-371 | Every delivery and every start of a sync, by either peer, keeps the lagging peer on the walk and accounts for everything on its way in overlapping rounds; what would bring it on is never lost |
| SyncRuns.MoveLoad | src/mesh/db_sync.cpp:368-370 | When the walks never stand still with more than a page behind them, every delivery but an echo makes the load lighter, and starting a sync adds at most a constant |
| SyncRuns.EveryRunFollowsTheWalk | src/mesh/mesh_service.cpp:1032-1034 | Every run of syncs, whoever starts them and whenever: the lagging peer has only rows of the leading peer's and is always at some step of the walk; when only telemetry echoes are left on their way it is where the walk stands still |
| SyncLimits.CatchUpExactly | src/mesh/db_sync.cpp:126-182 | Some run of syncs gives the lagging peer every row with a timestamp, in all three tables, if and only if the walks from its maxima through the leading peer's tables cover them |
| SyncLimits.SettlesExactly | src/mesh/db_sync.cpp:368-370 | Deliveries other than telemetry echoes are bounded by a constant for each sync started if and only if no walk stands still with more than a page behind it |
| CutWalks.PageAtCut | src/store/database.cpp:834-848 | When no two rows across a cut share a timestamp, the query with that cursor returns exactly the rows behind the cut |
| CutWalks.RepeatsExactly | src/store/database.cpp:834-848 | With distinct timestamps the walk gets every key if and only if no twenty consecutive rows repeat earlier keys before a new one, and stands still with more than a page behind it if and only if twenty do so before any other row |
| CutWalks.TiesExactly | src/store/database.cpp:837-838 | With one row a key the walk gets every key if and only if no page boundary falls between two rows with one timestamp |
| CatchUpConditions.RepeatsDecide | src/mesh/mesh_service.cpp:1149-1196 | With distinct timestamps, packet ids repeated at will: the lagging peer can get every row, and the exchange falls quiet, if and only if no twenty consecutive messages repeat earlier ids before a new one, or before any other one |
| CatchUpConditions.TiesDecide | src/mesh/db_sync.cpp:126-182 | With one row a packet id: the lagging peer can get every row if and only if in none of the three tables a page boundary falls between two rows with one timestamp; the exchange always falls quiet |
| CatchUpConditions.HeardTwiceNeverEnds | src/mesh/mesh_service.cpp:1149-1196 | Twenty messages each heard again through a second radio, then one more: a new peer never gets the last one, and the exchange has no bound |
| CatchUpConditions.RoundRepeats | src/mesh/db_sync.cpp:368-370 | A page without news but with more behind it: two deliveries later tables and queues are exactly as before |
| CatchUpConditions.BurstIsNeverComplete | src/mesh/db_sync.cpp:164-174 | A new peer never gets all of more than twenty messages from one second |
| CatchUpConditions.TimelessRowsAreNeverPaged | src/store/database.cpp:837-838 | Whatever the cursors, no page carries a row whose timestamp is 0 |
| CatchUpConditions.LivePushOvertakes | src/mesh/mesh_service.cpp:1244-1245 | A live push newer than all else, taken by a peer that is still catching up: it can then get every message if and only if that was the only one it lacked, and every row if and only if moreover the walks of positions and telemetry cover theirs |
| CatchUpValues.ValuesExactly | src/store/database.cpp:973-1050 | After any run of syncs the lagging peer has a telemetry row with all its metrics if and only if it has the row's key and did not start with a row of that key that differs |
| CatchUpValues.MatchExactly | src/store/database.cpp:973-1050 | Some run brings every row with a timestamp to the leading peer's state if and only if some run brings every key and no telemetry row the lagging peer starts with differs |
| CatchUpValues.LateMetricsNeverArrive | src/mesh/db_sync.cpp:126-156 | One row with metrics added since: neither peer answers the other's inventory, and no run brings the metrics over |
| CutWalks.HeldBehindExactly | src/store/database.cpp:837-838 | With distinct timestamps and one row a key the walk gets every key if and only if the reader lacks none at or before its cursor |
| StrayPages.GapsExactly | src/store/database.cpp:837-838 | With distinct timestamps and one row a packet id, a peer with any of the leading peer's rows can get every message if and only if it lacks none that is no newer than its newest |
| StrayPages.PageTearsGap | src/mesh/db_sync.cpp:158-182 | A page made for any cursors tears such a gap exactly when it brings news and the peer lacks a message at or before those cursors |
| StrayPages.StrayPageExactly | src/mesh/mesh_service.cpp:1390-1405 | On a network where a leading peer has two connections, the page for one peer's sync reaches the other too; that one can get every message afterwards if and only if not both hold |
| StrayPages.FirstIsMissed | src/mesh/mesh_service.cpp:1390-1405 | Two messages, a peer that has the first, and a new one that the page with the second reaches |
| PairNetwork.PairRunsAreNetworkRuns | src/mesh/mesh_service.cpp:1390-1405 | Every run of the pair is a run of the mesh network on the links 0-1 and 1-0, with the same tables and queues at the end, and the other way round |
| HttpRequestReader.Connection.HandleRead | src/web/http_server.cpp:401-504 | One read leaves the connection where `Read` says, which `ReadStep`, `ReadKeepsBytes` and `EndCloses` settle for every state |
| HttpRequestReader.Connection.ProcessRequest | src/web/http_server.cpp:506-572 | The answer replaces the output buffer, to be sent from its start, the state becomes writing or streaming, and the request is counted |
| HttpRequestReader.FirstTerminator | src/web/http_server.cpp:426 | The blank line found is the first one |
| HttpRequestReader.ParseStays | src/web/http_server.cpp:498-503 | Bytes after a complete request do not change it |
| HttpRequestReader.ReadStep | src/web/http_server.cpp:422-503 | After each read the connection is where the unsplit bytes so far say it is |
| HttpRequestReader.ReadKeepsBytes | src/web/http_server.cpp:422-503 | No byte is lost or taken twice: head, blank line, body and input buffer are the bytes read |
| HttpRequestReader.ChunkIndependence | src/web/http_server.cpp:401-504 | Under any chunking a request is processed exactly once, at the read that completes its body, with the head and the body of the unsplit input, and their answer is in the output buffer (section 6 of RFC 9112) |
| HttpRequestReader.EndCloses | src/web/http_server.cpp:401-420 | The end of the connection closes it, and so does any input on an event stream; nothing else changes |
| HttpRequestReader.EveryConnectionEnds | src/web/http_server.cpp:401-504 | Over a whole connection, reads of any sizes and its end: more than 65536 bytes without a blank line at some read close it with nothing processed; otherwise a request cut off before it is complete is never processed and the connection is closed; a complete one is processed once, whatever follows; a response is then being written, and an event stream is up if and only if nothing was read behind its request |
| HttpRequestReader.OversizedCloses | src/web/http_server.cpp:427-434 | Read byte by byte, a header block beyond the limit closes the connection |
| HttpRequestReader.AssembledExactlyWithinLimit | src/web/http_server.cpp:427-434 | A complete request is assembled under every chunking if and only if its header block is at most 65537 bytes |
| SseStream.Connection.CheckStreaming | src/web/http_server.cpp:196-200 | A broadcaster's look at the state, before the connection's lock |
| SseStream.Connection.AppendFrame | src/web/http_server.cpp:200-204 | The locked append: the whole frame, or nothing from a mebibyte on |
| SseStream.Connection.TakeSnapshot | src/web/http_server.cpp:644-668 | The first locked part of the write handler: compaction, the chunk, or nothing to send; a response that is out closes the connection, an event stream does not |
| SseStream.Connection.CommitWrite | src/web/http_server.cpp:681-695 | The second locked part: counts bytes that were sent meanwhile; when all of the buffer is out, a response closes the connection and an event stream goes on with an empty buffer |
| SseStream.StepDelivers | src/web/http_server.cpp:644-696 | Every atomic section keeps: bytes sent and bytes unsent are the header and the accepted frames, none torn, repeated or lost |
| SseStream.StepMissing | src/web/http_server.cpp:196-204 | A step leaves one more frame missing exactly when the broadcaster finds the stream not up or the append finds a mebibyte in the buffer; no other step loses or adds one |
| SseStream.StreamEndsExactly | src/web/http_server.cpp:644-696 | In every run an event stream is closed if and only if a send failed or the peer went |
| SseStream.ResponseEndsExactly | src/web/http_server.cpp:644-696 | In every run without such a failure a response is closed if and only if a locked section has found all its bytes on the wire |
| SseStream.NothingStale | src/web/http_server.cpp:653-668 | An event stream's snapshot holds no byte that is out already, and a flushed buffer is empty |
| SseStream.BacklogExactly | src/web/http_server.cpp:644-668 | That buffer is the bytes taken in and not yet on the wire, plus those on the wire that no later snapshot has thrown away |
| SseStream.ShortStreamsDropNone | src/web/http_server.cpp:201-203 | A stream still up that was offered less than a mebibyte in all has given no frame up |
| SseStream.EveryInterleavingDelivers | src/web/http_server.cpp:196-206 | In every interleaving, for responses and streams of any length, what is sent is a prefix of the header or response followed by whole frames, an in-order selection of those broadcast; the buffer stays below a mebibyte plus one frame or within the length it started with; frames taken in, in hand and given up add up to those broadcast, and none is missing if and only if none was given up |
| EventStream.BuildFrame | src/web/http_server.cpp:187-194 | The bytes of a broadcast event |
| EventStream.FrameText | src/web/http_server.cpp:187-194 | The frames spelled out as text |
| EventStream.FrameRead | src/web/http_server.cpp:187-194 | A reader that follows the standard reports a frame without line breaks as exactly the event broadcast, the default type when it had no name, and is left with nothing buffered; a keep-alive is not reported |
| EventStream.ReadBackExactly | src/web/http_server.cpp:187-194 | An event is read back as the one event it is if and only if neither its name nor its data has a line break |
| EventStream.PrefixReported | src/web/http_server.cpp:533-540 | More bytes only add events at the end |
| EventStream.PeerReportsBroadcasts | src/web/http_server.cpp:529-545 | End to end, in every interleaving and without a bound on the stream: what the peer has reported is the beginning of an in-order selection of the events broadcast, all of it once every byte is out; the selection is everything if and only if no frame was given up and none is in hand |
| WindowIndex.KeyInjective | src/tui/window_manager.cpp:62-69 | Different targets have different keys, whatever bars the device names contain |
| WindowIndex.KeyFound | src/tui/window_manager.cpp:103-104 | A key is in the map exactly when its target is in the list, and then at its position |
| WindowIndex.EnsureKeepsInv | src/tui/window_manager.cpp:101-268 | Opening, finding or moving a window keeps the map a bijection onto 1..N, one window per channel and per peer, and the node list at number zero |
| WindowIndex.OneNodelist | src/tui/window_manager.cpp:252-262 | In a valid index no second window is a node list, whatever the devices |
| WindowIndex.CloseKeepsInv | src/tui/window_manager.cpp:493-514 | Closing and renumbering keep the map a bijection |
| WindowIndex.CloseKeepsFocus | src/tui/window_manager.cpp:502-509 | Every other window keeps its place in the order, and the focus its window, or goes one back |
| WindowIndex.SelectFindsTarget | src/tui/window_manager.cpp:460-473 | Selecting a number ends on the window that had it before the call, though the old one may be closed on the way |
| WindowIndex.LeavesWhenEmpty | src/tui/window_manager.cpp:460-466 | Leaving closes the window left exactly when the focus moves away from an empty one, and takes the numbers behind it down by one |
| WindowIndex.FoundByKey | src/tui/window_manager.cpp:103-113 | A window found under its own key is the one that the search by kind and number finds |
| WindowIndex.EveryRunKeepsInv | src/tui/window_manager.cpp:45-268 | After any sequence of opening, closing, selecting and clearing, index and list agree, window 1 is the status window, the focus is in range, and each channel, each peer and the node list has at most one window |
| WindowManager.Manager.constructor | src/tui/window_manager.cpp:45-51 | Starts with the status window alone, in a valid index |
| WindowManager.Manager.AddWindow | src/tui/window_manager.cpp:62-69 | One new window at the end, numbered by the list's length |
| WindowManager.Manager.Locate | src/tui/window_manager.cpp:103-145 | The three lookups (own key, key without device, kind and number) find the one window there can be and move it under the key |
| WindowManager.Manager.EnsureChannel | src/tui/window_manager.cpp:101-153 | Position, index, title and history after asking for a channel's window; all other windows untouched |
| WindowManager.Manager.EnsureDm | src/tui/window_manager.cpp:155-214 | The same for a peer: no nick leaves the title, a placeholder never replaces a real name in a window found under its own key, and everything else does |
| WindowManager.LastNameIsShown | src/tui/window_manager.cpp:160-170 | Over any calls, a name once shown is shown until another name comes, whatever placeholders come in between |
| WindowManager.Manager.EnsureNodelist | src/tui/window_manager.cpp:245-268 | Afterwards the window at the position returned, under the given device, is the only node list; found under its own key it keeps its title, moved or new it gets the given one; all other titles and all lines stay |
| WindowManager.Manager.EnsureRaw | src/tui/window_manager.cpp:236-243 | One raw window a device |
| WindowManager.Manager.Renumber | src/tui/window_manager.cpp:499-501 | The renumbering loop moves exactly the numbers above the closed one |
| WindowManager.Manager.CloseWindow | src/tui/window_manager.cpp:493-514 | The others keep their order, and the focus stays on the same window object unless that is the one closed |
| WindowManager.Manager.CloseIfEmpty | src/tui/window_manager.cpp:516-527 | Closes exactly a window other than the first that has no lines and is a DM, or a channel whose title is "#ch", a digit and anything; the others keep their order |
| WindowManager.Manager.Select | src/tui/window_manager.cpp:460-473 | The focus ends on the very window object that had the number, read and scrolled down; the window left is gone if and only if it is another one, has no lines, and is a DM or a channel titled "#ch" and a digit, and no other window ever goes |
| WindowManager.Manager.LeaveCurrent | src/tui/window_manager.cpp:461-466 | The window left goes when it is left empty, and the window asked for is numbered one less when it was behind it |
| WindowManager.Manager.NextActive | src/tui/window_manager.cpp:475-479 | The first window with activity behind the current one, round the end of the list, or none |
| WindowManager.Manager.SelectNextActive | src/tui/window_manager.cpp:475-484 | Goes to the first active window behind the current one, else to the first from the start of the list; to none if none is active |
| WindowManager.Manager.Clear | src/tui/window_manager.cpp:53-60 | Back to the status window alone |
| PacketTracking.PairKeyInjective | src/mesh/mesh_service.cpp:119 | Packing sender and id into 64 bits loses nothing |
| PacketTracking.DedupWindow.IsDuplicate | src/mesh/mesh_service.cpp:117-126 | True exactly for a pair with nonzero id among the last five hundred accepted; the window never exceeds that |
| PacketTracking.DedupWindow.KeysDistinct | src/mesh/mesh_service.h:173-176 | No key is in the window twice |
| PacketTracking.EveryRunIsSpaced | src/mesh/mesh_service.cpp:117-126 | In every run two acceptances of one pair have at least five hundred others between them |
| PacketTracking.DuplicateExactly | src/mesh/mesh_service.cpp:117-126 | A pair that was accepted is a duplicate exactly until five hundred others have been accepted |
| PacketTracking.NewPairAccepted | src/mesh/mesh_service.cpp:117-126 | A pair is accepted if that sender has not used the id, whatever other senders did |
| PacketTracking.IdGenerator.NextPacketId | src/mesh/mesh_service.cpp:392-401 | Low ten bits count, the others come from the random source |
| PacketTracking.SameIdExactly | src/mesh/mesh_service.cpp:392-401 | Two ids are equal if and only if they are a multiple of 1024 calls apart and got the same random bits |
| PacketTracking.ConsecutiveIdsDiffer | src/mesh/mesh_service.cpp:392-401 | Any 1024 consecutive ids differ, whatever the random source returns |
| PacketTracking.ZeroExactly | src/mesh/mesh_service.cpp:392-401 | An id is zero if and only if the count of calls is a multiple of 1024 there and the random source returned twenty-two zero bits |
| PacketTracking.ZeroIsGivenOut | src/mesh/mesh_service.cpp:392-401 | A random source that keeps returning zero bits makes the generator give out zero within 1024 calls |
| PacketTracking.AckTable.RecordSend | src/mesh/mesh_service.cpp:409-497 | A send adds a row under its own device, awaited on the device it is sent over (the stream, for a virtual device) when it wants an acknowledgement, and keeps the table pointing at the latest pending row of each key |
| PacketTracking.AckTable.HandleAck | src/mesh/mesh_service.cpp:1246-1254 | An acknowledgement settles the awaited row and forgets it |
| PacketTracking.AckTable.DropDevice | src/mesh/mesh_service.cpp:309-318 | A disconnect forgets the rows awaited on the device, and no others |
| PacketTracking.EveryRunTracks | src/mesh/mesh_service.h:53-54 | In every run, disconnects included, the table points at the latest row sent over each device with each id, exactly while that is pending and no disconnect has dropped it |
| PacketTracking.AckChangesOnlyLatest | src/mesh/mesh_service.cpp:1249-1254 | An acknowledgement changes only the row of the most recent send over the device it came from that wanted one and has its id, while that is awaited, whatever device the row is filed under |
| PacketTracking.SettledRowsStay | src/store/database.cpp:691-701 | A row leaves pending at most once and never changes after that; one dropped by a disconnect never leaves it |
| PacketTracking.WantedIsSettled | src/mesh/mesh_service.cpp:489-497 | The next acknowledgement for a send that wanted one settles its row and no other |
| PacketTracking.UnwantedIsNeverAcked | src/mesh/mesh_service.cpp:489-497 | A send that wanted none is not waited for, and its row keeps its empty state in every run |
| PacketTracking.DisconnectLosesAck | src/mesh/mesh_service.cpp:309-318 | A send, a disconnect and the acknowledgement: the row stays pending |
| WrapText.FitChunk | src/tui/window.cpp:196-207 | The longest piece that fits without splitting a character, or one whole character when none fits |
| WrapText.FindBreak | src/tui/window.cpp:209-229 | Breaks at the last space within reach, else after the piece, and goes on at the first byte behind that is no space |
| WrapText.WrapText | src/tui/window.cpp:152-238 | Terminates for every text and width; its lines are the greedy layout of the text, which by `LayoutIsUnique` is the only one |
| WrapTextProperties.LayoutIsUnique | src/tui/window.cpp:152-238 | A text has one layout of a width: the conditions on lines decide where each starts and ends and what it shows |
| WrapTextProperties.ContinuesAtInk | src/tui/window.cpp:217-228 | A continued line starts at the first byte that is no space, which is right behind the line before it unless that one was broken at a space |
| WrapTextProperties.LinesAreFull | src/tui/window.cpp:209-212 | A line that is continued could not have ended any later within the width, at a space or its segment's end, nor between characters when it was broken where there is no space |
| WrapTextProperties.LineShows | src/tui/window.cpp:178-230 | A line is a slice of the text, behind two spaces when it continues another and the width is more than fifteen |
| WrapTextProperties.HelloWorld | src/tui/window.cpp:209-220 | "hello world" at width five becomes "hello" and "world" |
| WrapTextProperties.NothingLost | src/tui/window.cpp:165-237 | The lines have the text's bytes in order, spaces and newlines aside |
| WrapTextProperties.OneRunPerSegment | src/tui/window.cpp:165-236 | The lines fall into runs, one nonempty run a segment between newlines |
| WrapTextProperties.CharactersStayWhole | src/tui/window.cpp:197-207 | In text that is well-formed by section 4 of RFC 3629 no line starts or ends inside a character |
| WrapTextProperties.WidthExactly | src/tui/window.cpp:183-229 | All lines, indent included, are within the width if and only if every character is |
| WrapTextProperties.FourBytesAreEnough | src/tui/window.cpp:183-229 | A width of at least four always holds for well-formed text |
| DeviceSpec.ParseDeviceSpec | src/app/config.cpp:27-91 | Accepts exactly the texts with a known type and a nonempty main field, and says what the record holds afterwards, also when the text is refused |
| DeviceSpec.AcceptedExactly | src/app/config.cpp:27-91 | A text is accepted if and only if it is a known type with something behind it, and for `ble` and `serial` that is no colon |
| DeviceSpec.BleText | src/app/config.cpp:38-46 | A name up to the first colon and a pin behind it |
| DeviceSpec.AddrText | src/app/config.cpp:47-54 | An address of seventeen characters and a pin behind it, else the whole text |
| DeviceSpec.TcpText | src/app/config.cpp:55-57 | The whole text is the host |
| DeviceSpec.SerialText | src/app/config.cpp:58-67 | A port up to the first colon and a baud rate, 115200 when it is no positive number |
| DeviceSpec.MeshText | src/app/config.cpp:68-88 | Host, port, user and password at the first three colons, as many as there are |
| DeviceSpec.RefusedLeaves | src/app/config.cpp:27-91 | What a refused text of each type leaves in the record |
| DeviceSpec.RefusedUntyped | src/app/config.cpp:33-36 | A text without a known type leaves the record as it was |
| DeviceSpec.FormatPrefers | src/app/config.cpp:93-113 | Of the transports filled in the first of mesh, tcp, serial, address and name is printed |
| DeviceSpec.FillMesh | src/app/config.cpp:68-88 | Host and port end at the second colon; the password keeps its colons |
| DeviceSpec.ParsesAgain | src/app/config.cpp:93-113 | For each transport, printing its fields and parsing them again gives them back, an empty pin turned into the default one |
| DeviceSpec.RoundTripExactly | src/app/config.cpp:27-113 | For every accepted text, printing and parsing again gives the same record if and only if the pin is not empty |
| DeviceSpec.EmptyPinIsLost | src/app/config.cpp:39-45 | An accepted text whose pin does not survive |
| DeviceSpec.FormatIsNormalForm | src/app/config.cpp:93-113 | The printed text is accepted, and printing it again gives the same text |
| DeviceSpec.AtoiOfDecimal | src/app/config.cpp:62 | A printed number is read back |
| DeviceSpec.AtoiReads | src/app/config.cpp:62 | Blanks in front, a sign, and whatever is no digit behind a number are read as `atoi` reads them |

## Left out

- RoundTripExactly: numbers are unbounded, so it speaks of texts whose baud rate fits an `int`; `atoi` beyond that is not modelled.
- CatchUpExactly: the lagging peer's rows are some of the leading peer's, message rows up to columns that are not replicated, positions by their keys, telemetry rows with all or some of their metrics; messages have nonzero packet ids, and rows without a timestamp, which are on no page, do not count; rows with one packet id count as one row, since the duplicate test drops all but the first. Rows are counted by their keys; their values are the subject of `MatchExactly`.
- RepeatsDecide: the rows the lagging peer has are the first ones by time of each of the leading peer's tables, which holds of a new peer and of one that has only paged; for any other it is `CatchUpExactly` that speaks of the walks.
- TiesDecide: the same.
- EveryRunFollowsTheWalk: the assumptions of `CatchUpExactly`, and no rows are added locally while the syncs run; `LivePushOvertakes` is about one that is.
- RowsGoBothWays: each table has one telemetry row a key, as the database's unique key sees to (`StoreReading`).
- EveryConnectionEnds: a read that would block is no read here.
- HandleSyncPayload: the `devices` and `send_raw` payloads do not touch the tables and are not modelled, nor is the device list that follows an inventory.
- HandleRequest: rows with equal timestamps come in insertion order here; SQLite leaves their order open.
- Sockets, TLS, Bluetooth, serial ports, poll loops, timeouts and reconnects: reads are chunks of any size, and links are FIFO queues that lose nothing while they are up.
- SQLite itself (write-ahead log, checkpoints, schema, failed statements), JSON, protobuf and zstd: payloads are decoded records; payloads above the 65000-byte frame limit, which are dropped, are left out of the network model.
- Concurrent callers of `send_to_radio`: the lock is per write, so frames of concurrent senders may be torn; the framing theorems are about one sender.
- The locks of `MeshService`: its event handlers are atomic steps here; only the SSE write path is at lock granularity.
- Request lines, header fields, query strings, routes, static files and response formatting: what the connection takes from a header block and the bytes it answers with are a parameter of `HttpRequestReader`, so its theorems hold for every way of parsing and every set of routes.
- The `id` and `retry` fields of event streams and a leading byte order mark: the server writes none.
- Window contents beyond emptiness, titles and read marks: scrollback, nick changes, history loading (its lines are a parameter), `select_relative` and the title texts.
- AckTable: a reconnect that changes a device's path moves its awaited rows to the new path; here a device keeps its name.
- ReachedExactly: no sync is started in the run, as a page also carries rows that their holder never pushed; `FloodCoverage` and `EveryPushReachesEveryPeer` hold with syncs.
- ProcessRequest: the bytes of the answer are a parameter.
- Conversions of lengths to `int` in `wrap_text`: texts are shorter than two gigabytes.
- ncurses, themes, the status bar, the web page, command dispatch, configuration files, command line flags, map and distance arithmetic, statistics queries.
