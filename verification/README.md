# Farmely gateway, relay and cloud: a verified model

A Dafny model of the stateful parts of the Farmely smart-home repository, with proofs about
whole runs. Four groups of components are modelled, each in the form its source has: where the
source updates tables, fields or buffers in place there is a class whose methods do the same and
are proved equal to a step on a value; the properties are then proved of those steps and of
every run of them.

* **BLE Mesh gateway** (`MeshNodes`, `MeshRow`, `MeshProtocol`, `MeshGuarantees`, `MeshLaws`,
  `MeshGateway`, `GatewayTopics`). A table of provisioned nodes, one pending-command slot per node,
  group-sync tasks, and a client callback that acknowledges, retries, re-sends or drops. The system
  is a transition system whose steps are commands, polls, provisioning, sync visits and stack
  events. The stack is represented by its obligation: each acknowledged request that was sent later
  yields exactly one status, timeout or error event. Sends, task creation and replies are free
  choices. Main results: safety over every run from boot; every command is resolved, with an
  explicit bound on the number of its row's further events whatever the other rows do; the exact
  Set-request budget of one command; exactly when an acknowledgement can be trusted; what each step
  does to its row.
* **MJPEG relay** (`Decimal`, `Multipart`, `StreamLaws`, `RelayPublisher`, `RelayFanout`). The
  camera prints frames to a socket that may take any part of a write; the relay parses them by
  lines and lengths and fans the latest frame out to viewers. Main results: the round trip with its
  exact condition; cutting any stream, well formed or not, only loses frames off its end; how any
  part is read, whatever its boundary and headers; a viewer's connection, cut anywhere, carries
  frames of the camera in capture order.
* **Cloud device store** (`JsonMerge`, `CloudTables`, `ShadowHistory`, `EventPaging`,
  `GroupCommands`, `CommandLaws`, `MqttBridge`, `BridgeLaws`, `CloudRuns`, `PublishedState`,
  `DeviceStore`, `OtaTables`, `OtaDispatch`, `OtaEngine`, `OtaLaws`). Desired and reported shadows,
  message deduplication, stale sweep, event log, group commands and automations, the doorbell
  topics, command acknowledgements and update results, firmware rollouts. Main results: shadows are
  the fold of the merge over first deliveries, and desired ones the merge of exactly what was
  published, whatever the bridge, the automations and the users do; a message repeated among
  anything else counts once; a group command under a new id takes effect on every known member; a
  report runs exactly the automations that fit it; the merge against RFC 7396 with the exact
  condition; exact paging under concurrent arrivals; bounds on firmware dispatches over every run,
  and exactly what dispatches, results and evaluations do to the update rows.
* **Two small state machines** (`LedStripEncoder`, `MovingAverage`). The resumable LED encoder and
  the frame-time filter, each against its simple specification.

Bytes are modelled as characters in the relay and as integers below 256 elsewhere. Times are
integers and appear only where they are compared. Store methods and gateway handlers are atomic;
callbacks of the mesh stack, the network and the publisher are parameters.

## What turned out not to hold

* *At most four Set requests per command* does not hold: a Get status that contradicts the command
  starts its retries afresh. The budget is `4 * (g + 1)` after `g` such statuses, it is never
  exceeded (`MeshGuarantees.ReachableRow`), and it is reached for every `g`
  (`MeshGuarantees.BudgetIsReached`).
* *An acknowledgement shows that the node carried out the command* does not hold:
  `MeshGuarantees.AckMayPrecedeTheSet`. As long as its row is not polled it holds exactly when the
  command's Set is the only request outstanding and every sync task has passed the row: then every
  run acknowledges it only by a Set status that leaves nothing outstanding, and otherwise some run
  does not (`MeshGuarantees.AckShowsTheSetExactly`). Seen when the command is given: exactly for a
  directed command on a quiet row with no sync visit due (`MeshGuarantees.AssuredCommands`).
* *A device id names one node* does not hold: it shows three bytes of the UUID, and of nodes that
  agree in them only the first is ever reached (`MeshProtocol.SharedDeviceId`,
  `MeshProtocol.BridgeCommandIsExact`).
* *Merging is idempotent* and *merging is JSON Merge Patch* hold exactly on compatible patches,
  those whose nested nulls only ever meet objects (`JsonMerge.MergeIsIdempotent`,
  `JsonMerge.MergeIsMergePatch`); `JsonMerge.NestedNullActsLate` is the smallest failure.
* *The multipart round trip* holds exactly when no frame exceeds the parser's 8 MiB limit
  (`Multipart.RoundTrip`).
* *The filter returns the average* holds exactly for non-negative sums, single samples, and counts
  too large to matter: the sum is divided as an unsigned number (`MovingAverage.QuotientIsAverage`).
* *Firmware status only moves forward* does not hold: `OtaDispatch.StatusIsNotMonotone`. It holds
  exactly along the runs in which no failed row is dispatched again and no result ranks below the
  row it finds (`OtaDispatch.StatusFallsExactly`, `OtaDispatch.StatusMovesForward`). A result
  delivered again is handed on again (`MqttBridge.RepeatedResultIsHandedOn`).
* Group commands are deduplicated by position in the member list and not by device: after the
  membership changed, a replay reaches exactly the positions past the old list
  (`GroupCommands.ReplayTouchesOnlyNewPositions`).

## Model

| member | source | states |
|---|---|---|
| MeshNodes.Lookup | esp_ble_mesh/provisioner/main/main.c:232-248 | an answer is the first row covering a unicast address; no answer means no row covers it |
| MeshNodes.StoreRowIsTheDevicesRow | esp_ble_mesh/provisioner/main/main.c:206-228 | a store writes the device's own row, else the first empty row, else none; the all-zero UUID included |
| MeshNodes.StoreKeepsTable | esp_ble_mesh/provisioner/main/main.c:197-230 | distinct devices and disjoint address ranges in a prefix of the rows are kept |
| MeshNodes.StoreRefinesMap | esp_ble_mesh/provisioner/main/main.c:197-230 | storing updates a map from UUID to range at one key; exactly when it fails; no other device changes |
| MeshNodes.LookupFindsOwner | esp_ble_mesh/provisioner/main/main.c:232-248 | lookup answers a row if and only if that row's device owns the address |
| MeshLaws.LookupReadsTheMap | esp_ble_mesh/provisioner/main/main.c:232-248 | lookup answers a row of the one device whose range in the map holds the address |
| MeshNodes.OverlapIsShared | esp_ble_mesh/provisioner/main/main.c:197-230 | two ranges overlap exactly when an address lies in both |
| MeshNodes.ReplayRefinesMap | esp_ble_mesh/provisioner/main/main.c:197-230 | after any history the array refines a bounded map, and a device never leaves its row |
| MeshRow.HowACommandEnds | esp_ble_mesh/provisioner/main/main.c:1078-1245 | an event acknowledges exactly on a status with the desired value, and drops exactly on error, failed send or spent retries |
| MeshRow.CommandKeepsRow | esp_ble_mesh/provisioner/main/main.c:383-405 | a directed command is accepted exactly on a free slot with a successful send, then waits for one if it is for on and for zero if for off, and otherwise leaves the row as it was |
| MeshRow.StartGetKeepsRow | esp_ble_mesh/provisioner/main/main.c:289-298 | a poll keeps the row invariant and every command attended |
| MeshRow.PollIsAskedFourTimes | esp_ble_mesh/provisioner/main/main.c:1191-1222 | an unanswered poll of an idle node is asked four times in all and given up; a status ends it |
| MeshRow.VisitKeepsRow | esp_ble_mesh/provisioner/main/main.c:412-421 | a sync visit keeps the row invariant, leaves a request or no command behind, and lowers the rank |
| MeshRow.ReplyKeepsRow | esp_ble_mesh/provisioner/main/main.c:1090-1250 | every event keeps the row invariant, leaves the command attended and lowers the rank |
| MeshRow.NothingLost | esp_ble_mesh/provisioner/main/main.c:383-405 | accepted = acknowledged + dropped + in flight |
| MeshRow.AckedAtMostOnce | esp_ble_mesh/provisioner/main/main.c:1110-1128 | no message id is acknowledged more often than it was accepted |
| MeshRow.Truncated | esp_ble_mesh/provisioner/main/main.c:396-397 | the stored id is the longest prefix that fits the buffer: all of a short id, 95 characters of a long one |
| MeshProtocol.FindDevice | esp_ble_mesh/provisioner/main/main.c:490-503 | the first provisioned row answering to the device id |
| MeshProtocol.BridgeCommandIsExact | esp_ble_mesh/provisioner/main/main.c:481-503 | a directed command reaches the first answering row and no other, is not found exactly if none answers, and without success changes nothing |
| MeshProtocol.SharedDeviceId | esp_ble_mesh/provisioner/main/main.c:250-255 | two UUIDs give one device id exactly when their bytes 5 to 7 agree |
| MeshLaws.DeviceIdShowsBytes | esp_ble_mesh/provisioner/main/main.c:250-255 | the id is "node-" and reads back, in upper-case hexadecimal, as bytes 5, 6 and 7 of the UUID |
| MeshProtocol.GroupAllOrNothing | esp_ble_mesh/provisioner/main/main.c:425-479 | exactly when a group command is refused; when it succeeds every provisioned slot waits for its value under its id and that value is broadcast; else every row is unchanged |
| MeshProtocol.ReplyFindsRow | esp_ble_mesh/provisioner/main/main.c:1074-1092 | an event for a node's own address is handled on that node's row |
| MeshProtocol.CommandRowKeepsInv | esp_ble_mesh/provisioner/main/main.c:383-405 | a directed command keeps the invariant of the whole gateway |
| MeshProtocol.EventKeepsInv | esp_ble_mesh/provisioner/main/main.c:1053-1250 | an event, with the toggle it may start, keeps the invariant, touches one row and lowers its rank; what it does to the row is in MeshLaws.CommandAfterEvent and MeshLaws.IdleRowAfterEvent |
| MeshLaws.EventIsHandled | esp_ble_mesh/provisioner/main/main.c:1053-1250 | the step of an event that starts no toggle is the handler of its row and nothing else |
| MeshLaws.CommandAfterEvent | esp_ble_mesh/provisioner/main/main.c:1078-1245 | of the step: what every event on a row in flight does to slot, retry counters, requests, shown value and history |
| MeshLaws.IdleRowAfterEvent | esp_ble_mesh/provisioner/main/main.c:1093-1217 | of the step: an event on a free row shows its value, and asks an unanswered Get again three times |
| MeshLaws.PollRun | esp_ble_mesh/provisioner/main/main.c:1191-1217 | as a run: an unheard poll of a quiet row sends four Gets, then the row is quiet again |
| MeshLaws.CommandAsksForItsValue | esp_ble_mesh/provisioner/main/main.c:383-479 | an accepted command, directed or group, occupies the slot with one for on and zero for off, and sends or broadcasts that value |
| MeshLaws.CommandAckedOnItsValue | esp_ble_mesh/provisioner/main/main.c:1110-1164 | it is acknowledged on a status of that value and on no other event |
| MeshLaws.VisitAsks | esp_ble_mesh/provisioner/main/main.c:412-421 | of the step: a sync visit asks a row in flight, or drops its command if it cannot, and moves on |
| MeshLaws.ProvisionRefinesMap | esp_ble_mesh/provisioner/main/main.c:706-719 | of the step: provisioning updates the map from UUID to range, exactly when it fits, and records the light as off |
| MeshProtocol.VisitKeepsInv | esp_ble_mesh/provisioner/main/main.c:407-423 | a sync visit keeps the invariant, touches one row and lowers its rank |
| MeshProtocol.ProvisionKeepsInv | esp_ble_mesh/provisioner/main/main.c:706-719 | provisioning a new or a quiet device keeps the invariant |
| MeshProtocol.StepKeepsInv | esp_ble_mesh/provisioner/main/main.c:355-1250 | every step keeps the invariant |
| MeshProtocol.RunKeepsInv | esp_ble_mesh/provisioner/main/main.c:355-1250 | every run keeps the invariant |
| MeshGuarantees.ReachableRow | esp_ble_mesh/provisioner/main/main.c:355-1250 | in every state reachable from boot: no command is stuck, free slots are zero, counters stay within three, commands are conserved, acknowledgements are not repeated, Sets stay within budget |
| MeshGuarantees.ReactiveRunIsBounded | esp_ble_mesh/provisioner/main/main.c:1115-1241 | without new commands or polls the number of further events and visits is bounded by the rank |
| MeshGuarantees.RowResolvesByItsOwnEvents | esp_ble_mesh/provisioner/main/main.c:1115-1241 | in any run at all, whatever is commanded, polled or provisioned meanwhile, a command in flight bounds the events and visits of its row by the starting rank and the polls of that row |
| MeshGuarantees.StepSeenFromRow | esp_ble_mesh/provisioner/main/main.c:355-1250 | while a row is in flight only its own events, visits and polls reach it, and events and visits lower its rank |
| MeshGuarantees.DirectedCommandResolves | esp_ble_mesh/provisioner/main/main.c:1155-1178 | in any run without a poll of its row, a lone Set is only repeated, one retry for each event of its node, and at most three times |
| MeshGuarantees.SetAnswered | esp_ble_mesh/provisioner/main/main.c:1142-1178 | an event on a lone Set makes its row quiet or repeats the Set with one retry more, and acknowledges exactly on a Set status with its value |
| MeshGuarantees.AckShowsTheSetExactly | esp_ble_mesh/provisioner/main/main.c:1110-1164 | every run without a poll of the row acknowledges its command only by a Set status that leaves nothing outstanding, if and only if its Set is the only request outstanding and no sync visit is due |
| MeshGuarantees.AssuredCommands | esp_ble_mesh/provisioner/main/main.c:481-503 | seen when it is given: a command has that assurance exactly if it is directed and its row is quiet with no sync visit due |
| MeshGuarantees.ToggleActsOnce | esp_ble_mesh/provisioner/main/main.c:1129-1137 | a Get status from the armed address disarms it and, if the row is free, starts a command for one after a zero and for zero after anything else |
| MeshGuarantees.InFlightCanReact | esp_ble_mesh/provisioner/main/main.c:407-423 | a command in flight always has an event or a sync visit still to come |
| MeshGuarantees.ExhaustedRunResolvesAll | esp_ble_mesh/provisioner/main/main.c:1053-1250 | a run that can go no further has acknowledged or dropped every accepted command |
| MeshGuarantees.BudgetIsReached | esp_ble_mesh/provisioner/main/main.c:1120-1127 | for every g a run exists in which one command sends 4(g+1) Sets after g contradicting Get statuses |
| MeshGuarantees.AckMayPrecedeTheSet | esp_ble_mesh/provisioner/main/main.c:1115-1119 | a run in which a command is acknowledged while its own Set is unanswered |
| MeshGateway.Gateway.StoreNodeInfo | esp_ble_mesh/provisioner/main/main.c:197-230 | the two searching loops write what the specification of a store writes |
| MeshGateway.Gateway.GetNodeInfo | esp_ble_mesh/provisioner/main/main.c:232-248 | the loop finds the row the specification of lookup finds |
| MeshGateway.Gateway.ProvisionNode | esp_ble_mesh/provisioner/main/main.c:706-719 | is the provisioning step of the transition system, and returns whether the table took the device |
| MeshGateway.Gateway.ClearAllPending | esp_ble_mesh/provisioner/main/main.c:362-367 | empties every slot |
| MeshGateway.Gateway.SendOnoffRequest | esp_ble_mesh/provisioner/main/main.c:369-381 | a sent Set is one more request owed an event |
| MeshGateway.Gateway.SendGet | esp_ble_mesh/provisioner/main/main.c:279-287 | a sent Get is one more request owed an event |
| MeshGateway.Gateway.StartGet | esp_ble_mesh/provisioner/main/main.c:289-298 | is the poll step |
| MeshGateway.Gateway.SendOnoff | esp_ble_mesh/provisioner/main/main.c:383-405 | is the directed command step |
| MeshGateway.Gateway.SendGroupOnoff | esp_ble_mesh/provisioner/main/main.c:425-479 | is the group command step, in every outcome |
| MeshGateway.Gateway.GroupSyncIteration | esp_ble_mesh/provisioner/main/main.c:412-421 | is the sync visit step |
| MeshGateway.Gateway.FindNode | esp_ble_mesh/provisioner/main/main.c:490-500 | the loop finds the first row answering to the device id |
| MeshGateway.Gateway.HandleBridgeCommand | esp_ble_mesh/provisioner/main/main.c:481-503 | is the bridge command step |
| MeshGateway.Gateway.OnGetStatus | esp_ble_mesh/provisioner/main/main.c:1093-1128 | is the Get-status step on its row |
| MeshGateway.Gateway.OnSetStatus | esp_ble_mesh/provisioner/main/main.c:1142-1178 | is the Set-status step on its row |
| MeshGateway.Gateway.OnGetTimeout | esp_ble_mesh/provisioner/main/main.c:1191-1222 | is the Get-timeout step on its row |
| MeshGateway.Gateway.OnSetTimeout | esp_ble_mesh/provisioner/main/main.c:1223-1243 | is the Set-timeout step on its row |
| MeshGateway.Gateway.GenericClientEvent | esp_ble_mesh/provisioner/main/main.c:1053-1250 | is the event step of the transition system, the toggle included, to which the laws of MeshLaws apply |
| GatewayTopics.TopicIsExact | esp_ble_mesh/provisioner/main/gateway_bridge.c:117-164 | a topic yields a device id exactly when it is a group topic or is built from that id |
| GatewayTopics.SecondCopyIsRefused | cloud_service/src/cloud_service/mqtt_bridge.py:108-143 | both topics the cloud publishes a command on name the same device, and the second copy changes nothing |
| Decimal.ParseDec | server_relay/mjpeg_relay.py:96-99 | a printed length is read back |
| Decimal.ParseSyntax | server_relay/mjpeg_relay.py:96-99 | which texts are numbers: signs and underscores are accepted, anything else is not |
| Decimal.NumbersAreExact | server_relay/mjpeg_relay.py:96-99 | exactly which texts the length parser takes for numbers |
| Multipart.LineEnds | server_relay/mjpeg_relay.py:84-86 | a line read ends with the first newline, or with the stream |
| Multipart.NamedLength | server_relay/mjpeg_relay.py:91-99 | the length header counts under any spelling of its name in upper and lower case |
| Multipart.PartIsRead | server_relay/mjpeg_relay.py:84-106 | one printed frame, of any bytes, is parsed as exactly that frame |
| StreamLaws.NoiseIsSkipped | server_relay/mjpeg_relay.py:84-88 | a line that does not start with two dashes is skipped |
| StreamLaws.StripTakesBlanks | server_relay/mjpeg_relay.py:94-97 | stripping takes blanks off both ends and nothing else |
| StreamLaws.AnyPartIsRead | server_relay/mjpeg_relay.py:84-107 | any boundary and any headers: the last length counts, a refused one is skipped, a short body ends the stream |
| Multipart.RoundTrip | camera_stream/main/app_relay.c:94-111 | parsing what was printed gives the non-empty frames in order, if and only if none exceeds the limit |
| Multipart.CutLosesOnlyTheEnd | server_relay/mjpeg_relay.py:80-107 | for any stream, the frames of a prefix are a prefix of the frames |
| RelayPublisher.SendAll | camera_stream/main/app_relay.c:54-65 | everything is sent exactly if it reports success; else a proper prefix |
| RelayPublisher.PushTask | camera_stream/main/app_relay.c:92-113 | the wire holds a prefix of the printed frames, and all of them exactly if no write failed |
| RelayPublisher.HeaderFitsBuffer | camera_stream/main/app_relay.c:93-103 | the header of any 32-bit length fits the header buffer |
| RelayPublisher.Cam.Publish | server_relay/mjpeg_relay.py:31-36 | the cell holds the latest of the published frames and their number |
| RelayPublisher.ReadHeaders | server_relay/mjpeg_relay.py:89-99 | the header loop computes the last content length and stops behind the blank line |
| RelayPublisher.Ingest | server_relay/mjpeg_relay.py:80-107 | the loop publishes exactly the frames of the specification and counts them |
| RelayPublisher.CameraToRelay | server_relay/mjpeg_relay.py:80-107 | whatever part of the camera's stream arrives, the relay publishes a prefix of the captured non-empty frames |
| RelayFanout.TurnIsFaithful | server_relay/mjpeg_relay.py:145-153 | a viewer's turn keeps its deliveries a rising selection of the published frames |
| RelayFanout.RunKeepsInv | server_relay/mjpeg_relay.py:31-36 | for every interleaving each viewer's deliveries are a strictly rising selection, each with its own number |
| RelayFanout.NextTurnIsLatest | server_relay/mjpeg_relay.py:145-153 | once publishing stops the next turn delivers the latest frame, and later turns nothing |
| RelayFanout.ViewerLoop.Iterate | server_relay/mjpeg_relay.py:145-160 | an iteration is a viewer's turn, and the stream is the printed form of the deliveries |
| RelayFanout.CameraToViewer | server_relay/mjpeg_relay.py:145-160 | from capture to a viewer, cut anywhere twice: frames of the camera, whole and in order |
| JsonMerge.MergeObject | cloud_service/src/cloud_service/storage.py:117-130 | the loop over the patch computes the merge, in whatever order it visits the keys |
| JsonMerge.MergeIsMergePatch | cloud_service/src/cloud_service/storage.py:117-130 | the merge is the MergePatch of section 2 of RFC 7396 if and only if the patch is compatible |
| JsonMerge.MergeIsIdempotent | cloud_service/src/cloud_service/storage.py:117-130 | merging twice is merging once if and only if the patch is compatible |
| JsonMerge.DisjointPatchesCommute | cloud_service/src/cloud_service/storage.py:117-130 | patches with disjoint top-level keys commute |
| JsonMerge.NestedNullActsLate | cloud_service/src/cloud_service/storage.py:121-129 | a nested null on an absent key is stored first and acts on the second merge |
| CloudTables.EventKeepsOk | cloud_service/src/cloud_service/storage.py:635-656 | event ids rise, and a device stores a message id once |
| CloudTables.SweepIsExact | cloud_service/src/cloud_service/storage.py:544-568 | a sweep changes exactly the stale devices, leaves none, and repeated does nothing |
| ShadowHistory.EveryStoreIsOk | cloud_service/src/cloud_service/storage.py:476-568 | in every reachable store version is the sum of its counters, and online implies no offline reason and a last-seen time |
| ShadowHistory.ShadowIsFold | cloud_service/src/cloud_service/storage.py:476-568 | after any history each shadow is the fold of the merge over first deliveries, each version counts them, and the offline reason is the latest cause since it was online |
| ShadowHistory.RedeliveryIsNoOp | cloud_service/src/cloud_service/storage.py:1565-1589 | a message id delivered before in its scope changes nothing, for whichever device it comes again |
| ShadowHistory.LogIsFirstRecordings | cloud_service/src/cloud_service/storage.py:635-656 | after any history the event log holds exactly the first recordings, in order, under rising ids |
| EventPaging.NewestIsExact | cloud_service/src/cloud_service/storage.py:658-675 | a query returns every such event, once, newest first |
| EventPaging.CursorSplits | cloud_service/src/cloud_service/storage.py:668-674 | the last id of a page as cursor leaves exactly what the page left out |
| EventPaging.WalkIsExact | cloud_service/src/cloud_service/storage.py:658-675 | a walk returns every event of its first query once, newest first, whatever arrives meanwhile |
| EventPaging.WalkLength | cloud_service/src/cloud_service/storage.py:658-675 | every page but the last is full, none is empty, and their number is the events over the limit rounded up |
| GroupCommands.OneCommand | cloud_service/src/cloud_service/automation.py:33-46 | a command takes effect, is recorded and is published exactly for a known device and a new id |
| GroupCommands.GroupResults | cloud_service/src/cloud_service/automation.py:54-65 | a position takes effect exactly if its device is known and its scoped id new; when that is, see CommandLaws.NewGroupCommandTakesEffect |
| GroupCommands.GroupPublished | cloud_service/src/cloud_service/automation.py:54-65 | exactly the effective positions are published, in order |
| CommandLaws.ScopedIdsAreInjective | cloud_service/src/cloud_service/automation.py:63 | scoped ids differ with the message id or the position, whatever characters the message id is made of |
| CommandLaws.NewGroupCommandTakesEffect | cloud_service/src/cloud_service/automation.py:54-65 | a group command under a new message id changes and publishes every known member, whatever group commands came before under other ids |
| GroupCommands.MemberShadow | cloud_service/src/cloud_service/automation.py:54-65 | each effective member's desired state is patched once |
| GroupCommands.BystanderStays | cloud_service/src/cloud_service/automation.py:54-65 | other devices keep their shadows |
| GroupCommands.ReplayTouchesOnlyNewPositions | cloud_service/src/cloud_service/automation.py:54-65 | a replayed group command changes and publishes nothing but for positions past the first delivery's members |
| GroupCommands.AutomationsTouchOnlyDesired | cloud_service/src/cloud_service/automation.py:67-90 | automations change desired state only |
| GroupCommands.AutomationsPublishExactly | cloud_service/src/cloud_service/automation.py:67-90 | a list of automations ends without error exactly if each triggered one has its group or scene; then exactly their commands to known devices are published, in order |
| CommandLaws.ReportRunsWhatFits | cloud_service/src/cloud_service/automation.py:77-90 | a report runs exactly the automations of its device whose field is reported with their value, in order, up to the first without its group or scene; else nothing |
| PublishedState.DesiredIsWhatWasPublished | cloud_service/src/cloud_service/automation.py:33-46 | after anything the cloud did, a device's desired state is the merge of exactly the states published to it, and its desired version is their number |
| GroupCommands.SameJsonIsNumeric | cloud_service/src/cloud_service/automation.py:87 | a trigger compares values with booleans read as numbers, at every depth |
| GroupCommands.PlainValuesCompare | cloud_service/src/cloud_service/automation.py:87 | what equals a boolean, a number, a text and null |
| MqttBridge.DeliverOnce | cloud_service/src/cloud_service/mqtt_bridge.py:502-544 | one delivery on either topic: the version, the automations and the event row |
| MqttBridge.BothTopicsOnce | cloud_service/src/cloud_service/mqtt_bridge.py:345-381 | one id on both topics, in any order and number without a break: one version step, one automation call, at most one event row |
| MqttBridge.FirstDeliveryShows | cloud_service/src/cloud_service/mqtt_bridge.py:345-381 | a first delivery on either topic shows the device online with its event, and a stored row carries that event |
| MqttBridge.RepeatedResultIsHandedOn | cloud_service/src/cloud_service/mqtt_bridge.py:383-413 | an update result delivered twice reports once, but is handed to the firmware engine twice |
| MqttBridge.AckReachesShadow | cloud_service/src/cloud_service/mqtt_bridge.py:267-343 | the gateway's acknowledgement is shown in the light's reported shadow, the light being registered if it is new, stores no event and does not make the light online |
| BridgeLaws.NewReportShows | cloud_service/src/cloud_service/mqtt_bridge.py:178-194 | a new report is merged into what is shown, with offline reason and time, counted once, and hands its version on if no automation fails |
| BridgeLaws.NewReportSetsOff | cloud_service/src/cloud_service/mqtt_bridge.py:190-192 | the automations see the state with the report merged in |
| BridgeLaws.VersionIsHandedOn | cloud_service/src/cloud_service/mqtt_bridge.py:196-209 | exactly which reports hand which version on |
| BridgeLaws.EnvelopeIsRead | cloud_service/src/cloud_service/mqtt_bridge.py:291-302 | what is an envelope, what is its own data, and under which key the id is found |
| BridgeLaws.RouteIsExact | cloud_service/src/cloud_service/mqtt_bridge.py:271-287 | which channel and type go to which route |
| BridgeLaws.MessageIsRouted | cloud_service/src/cloud_service/mqtt_bridge.py:260-289 | each route is one handler, and a message without a route changes nothing |
| BridgeLaws.StatusIsShown | cloud_service/src/cloud_service/mqtt_bridge.py:304-343 | key by key what a status shows, and the offline reason it gives |
| BridgeLaws.NodeStatusReachesShadow | esp_ble_mesh/provisioner/main/gateway_bridge.c:543-552 | the status document the gateway publishes is what the shadow then shows |
| BridgeLaws.EventIsShown | cloud_service/src/cloud_service/mqtt_bridge.py:345-381 | key by key what an event shows and logs |
| BridgeLaws.LegacyIsShown | cloud_service/src/cloud_service/mqtt_bridge.py:502-544 | what a legacy document shows and logs, with the version it gives |
| BridgeLaws.NamelessIsIgnored | cloud_service/src/cloud_service/mqtt_bridge.py:520-521 | a legacy document without an event changes nothing |
| BridgeLaws.LegacyAckIsShown | cloud_service/src/cloud_service/mqtt_bridge.py:523-532 | a legacy acknowledgement shows what it acknowledges and logs nothing |
| BridgeLaws.ResultIsShown | cloud_service/src/cloud_service/mqtt_bridge.py:383-413 | exactly which update results count, what is handed on and what is shown |
| CloudRuns.EveryCloudIsAHistory | cloud_service/src/cloud_service/mqtt_bridge.py:178-544 | after any mix of messages, commands, scenes, configuration and store operations the tables are consistent and every shadow is the fold of a history of store operations |
| CloudRuns.ActivityRemembers | cloud_service/src/cloud_service/storage.py:499-526 | what was reported or logged stays so, and nothing is reported under another id than the message's |
| CloudRuns.RepeatedDeliveryCountsOnce | cloud_service/src/cloud_service/mqtt_bridge.py:345-544 | one id on both topics, with anything in between: all its deliveries together advance the version, call the automations and hand a version on at most once; one event row at most |
| CloudRuns.DeliveredAloneCountsOnce | cloud_service/src/cloud_service/mqtt_bridge.py:345-544 | exactly once, if it is delivered and nothing else reports under its id |
| DeviceStore.Store.UpdateDesired | cloud_service/src/cloud_service/storage.py:476-497 | is the desired update of the specification |
| DeviceStore.Store.UpdateReported | cloud_service/src/cloud_service/storage.py:499-526 | is the reported update of the specification |
| DeviceStore.Store.MarkOffline | cloud_service/src/cloud_service/storage.py:528-542 | is the offline mark of the specification |
| DeviceStore.Store.MarkStaleDevices | cloud_service/src/cloud_service/storage.py:544-568 | the loop performs the sweep and lists exactly the devices it changed, once each |
| DeviceStore.Store.RecordEvent | cloud_service/src/cloud_service/storage.py:635-656 | appends an event unless its message id is stored |
| DeviceStore.Store.ListDeviceEvents | cloud_service/src/cloud_service/storage.py:658-675 | collects the page of the specification |
| DeviceStore.Store.ApplyDesired | cloud_service/src/cloud_service/automation.py:33-46 | is the command of the specification |
| DeviceStore.Store.CommandMembers | cloud_service/src/cloud_service/automation.py:60-65 | the loop is the group command of the specification, to which the laws of CommandLaws apply |
| DeviceStore.Store.RunAction | cloud_service/src/cloud_service/automation.py:67-75 | runs one action, or reports that its group or scene is gone |
| DeviceStore.Store.OnReported | cloud_service/src/cloud_service/automation.py:77-90 | the loop runs the automations of CommandLaws.ReportRunsWhatFits |
| DeviceStore.Store.ApplyReported | cloud_service/src/cloud_service/mqtt_bridge.py:178-209 | a changed report is handed to the automations once, and its version to the firmware engine unless an automation raised an error |
| DeviceStore.Store.IngestDoorbell | cloud_service/src/cloud_service/mqtt_bridge.py:502-544 | is the legacy delivery of the specification |
| DeviceStore.Store.IngestOta | cloud_service/src/cloud_service/mqtt_bridge.py:383-413 | an update result counts for a known device with an update, registers nothing, and is then reported |
| DeviceStore.Store.IngestFarmely | cloud_service/src/cloud_service/mqtt_bridge.py:267-381 | is the normalised delivery of the specification, on every route |
| OtaTables.GrayShare | cloud_service/src/cloud_service/storage.py:1159-1166 | how many hash prefixes a percentage selects, that the early returns agree with the remainder test, and that raising the percentage deselects none |
| OtaTables.Candidate | cloud_service/src/cloud_service/storage.py:1177-1193 | the newest enabled rollout that applies |
| OtaTables.FindFirmware | cloud_service/src/cloud_service/storage.py:1201-1207 | the firmware of a build, or that there is none |
| OtaTables.TargetIsExact | cloud_service/src/cloud_service/storage.py:1168-1210 | exactly when a device is offered a firmware |
| OtaLaws.SelectionIsExact | cloud_service/src/cloud_service/storage.py:1168-1210 | every answer of the selection and when it is given, in terms of the rollouts' fields |
| OtaTables.RowFor | cloud_service/src/cloud_service/storage.py:1222-1225 | the row of a device and firmware, if any |
| OtaTables.LatestRow | cloud_service/src/cloud_service/storage.py:1263-1280 | the device's latest row, for a version if one is given |
| OtaDispatch.DispatchesAreBounded | cloud_service/src/cloud_service/storage.py:1212-1288 | over every run: one row per device and live firmware, and dispatches at most one more than failures |
| OtaDispatch.DispatchingStops | cloud_service/src/cloud_service/storage.py:1212-1288 | new dispatches are paid for by failed rows, new rows and new failures |
| OtaDispatch.DispatchIsIdempotent | cloud_service/src/cloud_service/storage.py:1220-1228 | beginning a dispatch again changes nothing |
| OtaLaws.BeginIsExact | cloud_service/src/cloud_service/storage.py:1212-1252 | which row a dispatch leaves, reopens or inserts, and how it then stands |
| OtaLaws.ResultIsExact | cloud_service/src/cloud_service/storage.py:1254-1288 | a result gives the device's latest matching row exactly its status and message id; without such a row nothing changes |
| OtaLaws.FailedIsDispatchedAgain | cloud_service/src/cloud_service/storage.py:1212-1288 | dispatch, failure, dispatch: the same row is pending again under the new message id; after any other result it is not |
| OtaLaws.RegisterIsExact | cloud_service/src/cloud_service/storage.py:1008-1052 | a known build keeps its id and gets the new address, a new one a new id; nothing else changes |
| OtaLaws.DeleteIsExact | cloud_service/src/cloud_service/storage.py:1071-1076 | the firmware goes and its rows are detached; nothing else changes |
| OtaLaws.EvaluationDispatches | cloud_service/src/cloud_service/ota.py:38-75 | a device with a target gets a pending row and the command under one message id, unless an update that has not failed is there |
| OtaDispatch.StatusIsNotMonotone | cloud_service/src/cloud_service/storage.py:1254-1288 | a late progress message takes a successful row back |
| OtaDispatch.StatusFallsExactly | cloud_service/src/cloud_service/storage.py:1212-1288 | a row's status falls exactly on a dispatch of its failed firmware, or on a result that finds it as the latest row and ranks below it |
| OtaDispatch.StatusMovesForward | cloud_service/src/cloud_service/storage.py:1212-1288 | along any run a row's status only rises if and only if no step takes it back |
| OtaEngine.Engine.RegisterFirmware | cloud_service/src/cloud_service/storage.py:1008-1052 | registering a build again keeps its id |
| OtaEngine.Engine.DeleteFirmware | cloud_service/src/cloud_service/storage.py:1071-1076 | detaches the rows of the firmware |
| OtaEngine.Engine.BeginOtaDispatch | cloud_service/src/cloud_service/storage.py:1212-1252 | is the dispatch of the specification and keeps the bounds |
| OtaEngine.Engine.RecordOtaResult | cloud_service/src/cloud_service/storage.py:1254-1288 | is the result of OtaLaws.ResultIsExact and keeps the bounds |
| OtaEngine.Engine.Evaluate | cloud_service/src/cloud_service/ota.py:38-75 | exactly a dispatch that was begun is published, with its row's message id |
| OtaEngine.Engine.OnVersionReport | cloud_service/src/cloud_service/ota.py:77-88 | records success for the reported version, then evaluates |
| OtaEngine.EvaluatingTwiceIsOnce | cloud_service/src/cloud_service/ota.py:38-75 | evaluating again publishes nothing and changes nothing |
| LedStripEncoder.StripReceivesData | internal_communication/main/led_strip_encoder.c:90-104 | the bits sent before the reset symbol read back as the data |
| LedStripEncoder.StripEncoder.Encode | internal_communication/main/led_strip_encoder.c:21-55 | a call emits as much of what remains as fits, and completes exactly when nothing remains |
| LedStripEncoder.StripEncoder.Reset | internal_communication/main/led_strip_encoder.c:67-75 | makes the encoder ready from any state |
| LedStripEncoder.Transmit | internal_communication/main/led_strip_encoder.c:21-55 | for every sequence of memory budgets the output is the bits and one reset symbol, completion comes on the call that emits it, and the encoder is ready again |
| MovingAverage.Filter.Run | app_httpd.cpp:152-168 | the running sum is the total of the last samples, and the result its quotient |
| MovingAverage.Filter.Put | app_httpd.cpp:158-166 | the ring keeps holding the last samples, turned |
| MovingAverage.QuotientIsAverage | app_httpd.cpp:167 | exactly when the unsigned division is the signed average |

## Left out

- The Bluetooth Mesh stack, Wi-Fi, provisioning windows, HTTP servers, camera, RMT channel and
  GPIO drivers: they appear only as parameters and as the obligation to answer sent requests.
- Interleavings inside one handler, SQLite thread races, delays and durations.
- Reprovisioning a node while one of its commands is pending: it changes the address replies are
  matched on. The node table is proved for any history of its own.
- Transaction identifiers of Set requests (`s_tid`), status version counters, progress codes and
  flash storage of the gateway; the configuration client and its retry counters.
- Whether an acknowledgement leaves the gateway: the bridge sends none while MQTT is down or for an
  empty message id. The model counts the call.
- The text of JSON payloads, both the gateway's parser and the cloud's encoder; JSON values are
  trees, and numbers are reals.
- CPython's limit on the number of digits `int` accepts, and errors raised by the network while the
  relay reads.
- Device attributes (type, name, capabilities, metadata, owner), rooms, accounts and tokens, SQL
  text, schema migration, HTTP routes and their validation.
- The firmware engine's work inside a delivery: the bridge model records the versions and update
  results it hands over, and whether an update is found is a parameter; the engine is modelled by
  itself. How a numeric version is printed.
- The legacy node, gateway and doorbell-status topics: they feed the same store operations.
- SHA-256: rollout selection takes any function from rollout and device to a number.
- Firmware checksums, signatures and notes; the device-side downloaders.
- The archived ESP-WIFI-MESH gateway, the captive DNS server, the mobile application.
- A filter whose buffer could not be allocated, which returns its samples unchanged, and a filter
  of size zero, which divides by zero.
