# Tuya BLE SDK: the wire stack and the session, verified

A Dafny model of the parts of the SDK in which something can go wrong in more than one place at a time, with proofs that
hold for every input, every run and every reachable state. `dafny verify dfyconfig.toml` checks all of it.

**The wire stack.** A frame is a header, its data and a CRC, padded, enciphered in CBC mode (section 6.2 of
NIST SP 800-38A, over an abstract invertible block function), preceded by a flag and an initialization vector, and cut into
fragments of 20 octets that number themselves with base-128 integers. The receiving side joins fragments again, deciphers,
checks and parses; a report is then split into datapoint records.

| file | what it is about |
|---|---|
| `Bytes`, `Bits` | octets, the errors that can be raised, big-endian fields; exclusive or and bit counts on integers |
| `Varint`, `Fragments` | base-128 integers; cutting a payload into numbered fragments |
| `Reassembly`, `Loss`, `Channel` | the reassembler as an object, what any history makes it return, and what a lossy channel delivers |
| `Crc`, `Division` | the checksum, which remainder it is, and what it detects |
| `Cbc`, `Frames`, `EndToEnd` | the cipher mode; frames; the whole stack |
| `DataPoints`, `Commands` | reports, the device record, the pairing request and its verdict |

**The session.** `Session` is a state machine: one client, any number of reads, any device. A step is a stretch of
`client.py` between two awaits, and the adversary chooses the steps: what every awaited operation of the radio does, when
each timer fires, when the caller cancels, every octet of every notification and when it arrives, and when a scheduled
reply gets to run. `Client` is the program itself, an object whose methods update its fields; every method is proved to
take exactly the step of the state machine. `Invariants` and `Preservation` prove what holds in every reachable state,
`Guarantees` what that means for a caller, `Wire`, `Sending` and `Replies` what reaches the radio, in what order, and that
all of it does, and `Driver` that every run of the object is a run of the machine. `Delivery` and `Conversation` put both
layers together: frames cut into fragments and delivered as notifications drive the session, and a device that cooperates
gets its reports through whatever the order in which fragments, writes and reply tasks come.

The state carries a log (numbers issued, frames sent, packets handed to the radio, requests answered, reports published
and drained, timers fired, operations failed) that the program does not have. It is never read by a step; it lets a
property speak of a whole session. `evidence` is the log of the session that has just been torn down.

**The sign string** (`SignString`) is shown to be a canonical form of the parameters that enter it.

## What the proofs found

- `TuyaBleError` is documented as the class every error of the SDK derives from (`exceptions/tuya_ble_error.py:6-12`).
  It is not: a device whose information record announces a protocol version of 16 or more makes the next request end in
  `struct.error`, because `frame.py:54` shifts the version into one octet. A request ends so exactly when the version or
  the sequence number does not fit its field (`Guarantees.StructErrorExactly`). The version survives the disconnect, so the
  client never sends another frame nor returns another result (`Conversation.HighVersionNeverReads`). Below 16, the same
  exchange always succeeds (`Conversation.HonestRead`, `Conversation.ReadCompletes`).
- Notifications that arrive while the disconnect is awaited, after the reset, are still processed, and frames under the
  login key still pass (`Guarantees.LateFrames`). A report among them is neither lost nor attributed to a session: the
  next read returns it (`Conversation.LateReportReturned`).
- When the opening fragment of a frame is lost, the reassembler can deliver a mixture of two frames. It does so if and only
  if the first fragment that arrives is the one it awaited and others follow without a gap to exactly the length still
  missing (`Channel.HeadlessShipment`); over a whole channel, exactly the payloads that arrived whole are delivered if and
  only if that never happens (`Channel.LossyChannel`).
- A report that comes in between the end of the quiet period and the read's resumption is published but not returned
  (`Guarantees.QuietRead`).
- A report whose last record has an empty value loses that record without an error, when nothing follows it
  (`DataPoints.ParsePrinted`, through `Dropped`).
- A sign string does not determine the parameters it was made from: it has a second reading if and only if two or more
  parameters enter it, or the value of the only one hides an entry (`SignString.AmbiguousExactly`).
- The code, not its documentation, is followed where they differ: a write that fails with a timeout of the radio's own is
  reported as an unanswered request (`client.py:254-256`), and `frame.py:142-143` speaks of frames without a checksum,
  which `decode` accepts but `encode` never makes.

## Model

| member | source | states |
|---|---|---|
| Varint.PackVarint | src/tuya_ble_sdk/protocol/varint.py:13-23 | the loop computes the base-128 digits, least significant first, every octet but the last flagged |
| Varint.UnpackVarint | src/tuya_ble_sdk/protocol/varint.py:26-39 | the bounded loop reads the digits up to the first unflagged octet, with its two errors |
| Varint.PackLength | src/tuya_ble_sdk/protocol/varint.py:13-23 | an encoding takes at most k octets exactly for values below 128^k |
| Varint.PackDigits | src/tuya_ble_sdk/protocol/varint.py:13-23 | the octets are the base-128 digits of the value, lowest first and none superfluous, and bit 7 says that another follows |
| Varint.RoundTrip | src/tuya_ble_sdk/protocol/varint.py:13-39 | with any octets around it, an encoding reads back as value and exact end below 2^28, and is refused from 2^28 on |
| Varint.UnpackSound | src/tuya_ble_sdk/protocol/varint.py:26-39 | every successful read takes 1 to 4 octets, gives a value that fits them, and read the shortest encoding exactly when the last octet is not a padding zero |
| Fragments.BuildPackets | src/tuya_ble_sdk/protocol/frame.py:39-59 | the greedy loop terminates and builds the specified split; no packets for an empty payload, an error for a version past 15 |
| Fragments.SplitShape | src/tuya_ble_sdk/protocol/frame.py:39-59 | the first fragment opens with 0, the length and sixteen times the version, fragment i with i; all but the last are exactly 20 octets, the last no longer, and their bodies join to the payload |
| Fragments.HeaderFits | src/tuya_ble_sdk/protocol/frame.py:50-55 | no header ever fills a fragment, so every turn of the loop makes progress |
| Reassembly.PacketReassembler.Feed | src/tuya_ble_sdk/protocol/reassembler.py:28-62 | the in-place update and the result, raise or payload, for every chunk in every state |
| Reassembly.PacketReassembler.Start | src/tuya_ble_sdk/protocol/reassembler.py:64-68 | starting drops the buffer first and keeps the stale length when the new one cannot be read |
| Reassembly.PacketReassembler.PayloadStart | src/tuya_ble_sdk/protocol/reassembler.py:70-77 | where the payload begins, or a reset and an error when the version octet is missing |
| Reassembly.FeedConsistent | src/tuya_ble_sdk/protocol/reassembler.py:28-83 | every chunk keeps the invariant: nothing awaited means nothing buffered, otherwise the buffer is shorter than declared |
| Reassembly.CompletesExactlyWholeFrames | src/tuya_ble_sdk/protocol/reassembler.py:35-62 | after any history of chunks, a payload is returned if and only if the readable chunks end in fragments 0, 1, ..., k with nothing between, whose bodies join to it and have the declared length |
| Channel.LossyChannel | src/tuya_ble_sdk/protocol/reassembler.py:28-62 | from any state and under any loss of fragments, exactly the payloads that arrived whole are delivered, in order, if and only if no frame that lost its opening splices |
| Channel.OpeningsSuffice | src/tuya_ble_sdk/protocol/reassembler.py:28-62 | in particular whenever no opening fragment is lost |
| Channel.OpenedShipment | src/tuya_ble_sdk/protocol/reassembler.py:28-62 | one frame with its opening is delivered exactly when nothing of it was lost, and then leaves a fresh reassembler |
| Channel.ShipmentTold | src/tuya_ble_sdk/protocol/reassembler.py:28-62 | under any loss, what a frame delivers and the state it leaves are decided by the bodies of its fragments, the lengths declared and which of them arrive |
| Channel.HeadlessShipment | src/tuya_ble_sdk/protocol/reassembler.py:39-62 | a frame without its opening, from any state, delivers something if and only if its first arrival is the fragment awaited and others follow without a gap to exactly the length still missing; and then what was held and what they carry |
| Channel.LostOpeningSplices | src/tuya_ble_sdk/protocol/reassembler.py:39-62 | whenever one frame breaks off after its first k fragments, the next is first heard at fragment k, and together they come to the length the first declared, the mixture is delivered and neither payload |
| Channel.FeedSplit | src/tuya_ble_sdk/protocol/reassembler.py:28-62 | feeding a whole split, from any state, returns nothing until the last fragment, then the payload, and leaves a fresh reassembler |
| Crc.Crc16 | src/tuya_ble_sdk/crypto.py:18-28 | the nested bit loop computes the specified register, which stays a word |
| Division.CrcExactly | src/tuya_ble_sdk/crypto.py:14-28 | a word is the checksum of a message if and only if it is the remainder of dividing it, its first sixteen bits inverted, by the generator 0x14003 (CRC-16/MODBUS, lowest coefficient first) |
| Crc.CrcIsDivision | src/tuya_ble_sdk/crypto.py:18-28 | octet by octet processing is one polynomial division of the message read as an integer |
| Crc.CrcAffine | src/tuya_ble_sdk/crypto.py:20-28 | the checksum of the exclusive or of three messages is that of their checksums |
| Crc.Undetected | src/tuya_ble_sdk/crypto.py:20-28 | two messages of one length have one checksum if and only if their difference divides to nothing |
| Crc.BurstOctetsDetected | src/tuya_ble_sdk/crypto.py:20-28 | messages that differ within sixteen consecutive bits, wherever they lie, have one checksum only if equal; one octet and two adjacent octets are cases of it |
| Crc.CrcParity | src/tuya_ble_sdk/crypto.py:20-28 | the parity of the checksum is the parity of the message |
| Crc.OddFlipsDetected | src/tuya_ble_sdk/crypto.py:20-28 | any odd number of flipped bits changes the checksum |
| Cbc.DecryptEncrypt | src/tuya_ble_sdk/crypto.py:51-64 | decryption undoes encryption for every key, vector and block-aligned text |
| Cbc.EncryptDecrypt | src/tuya_ble_sdk/crypto.py:51-64 | and encryption undoes decryption |
| Cbc.EncryptBlocks | src/tuya_ble_sdk/crypto.py:51-56 | each block is mixed with the enciphered block before it, the first with the vector, and enciphered |
| Cbc.VectorDamage | src/tuya_ble_sdk/crypto.py:59-64 | a damaged vector damages the first block at the same bits and nothing else |
| Frames.EncodeFrame | src/tuya_ble_sdk/protocol/frame.py:77-96 | header, data, checksum and padding are assembled in order and enciphered, or the field that does not fit is reported |
| Frames.PlaintextLayout | src/tuya_ble_sdk/protocol/frame.py:77-96 | the text octet by octet: number, number quoted, code and length, most significant octet first, the data, the checksum of all these, and zeros up to the next multiple of sixteen |
| Frames.RoundTrip | src/tuya_ble_sdk/protocol/frame.py:77-135 | encoding succeeds exactly on fields that fit, announces its flag, and decodes to the same frame |
| Frames.ParseExact | src/tuya_ble_sdk/protocol/frame.py:113-154 | a deciphered text is read as a frame if and only if it starts with that frame's header and data and continues with fewer than two octets or its checksum |
| Frames.DecodeExact | src/tuya_ble_sdk/protocol/frame.py:98-135 | decoding gives a frame if and only if the payload is long enough, in whole blocks, and deciphers to a text that carries it |
| Frames.AlterationRejected | src/tuya_ble_sdk/protocol/frame.py:138-154 | a change of header or data that changes the checksum and leaves the length alone is reported as a mismatch |
| Frames.BurstRejected | src/tuya_ble_sdk/protocol/frame.py:138-154 | damage to header or data within sixteen consecutive bits is always rejected |
| Frames.OddFlipsRejected | src/tuya_ble_sdk/protocol/frame.py:138-154 | damage that flips an odd number of bits is always rejected |
| Frames.VectorDamageRejected | src/tuya_ble_sdk/protocol/frame.py:98-154 | a payload on the wire whose vector is damaged in such a burst over its first ten octets is rejected, for every key and frame |
| EndToEnd.FrameArrives | src/tuya_ble_sdk/protocol/frame.py:39-135 | encode, split, feed into any reassembler and decode: nothing until the last fragment, then the frame that was sent |
| DataPoints.ParseDataPoints | src/tuya_ble_sdk/commands/data_points.py:41-61 | the record loop terminates and computes the specified points or the first error |
| DataPoints.ParsePrinted | src/tuya_ble_sdk/commands/data_points.py:41-61 | printed records, anywhere in the data and with up to three octets after them, are read back, except a last empty one that nothing follows |
| DataPoints.ParseSplits | src/tuya_ble_sdk/commands/data_points.py:41-61 | a successful parse splits the data into printed records and at most three octets left over |
| DataPoints.ParseExact | src/tuya_ble_sdk/commands/data_points.py:41-61 | parsing succeeds with given points if and only if the data are such records with such a rest |
| DataPoints.ParseRaises | src/tuya_ble_sdk/commands/data_points.py:41-111 | whatever a report holds, reading it raises nothing but the SDK's own errors |
| DataPoints.DecodeExactly | src/tuya_ble_sdk/commands/data_points.py:64-92 | what the value of each of the six types means, under the octet that stands for it: octets, whether any is nonzero, two's complement, UTF-8 text; only a text that is not UTF-8 is refused |
| DataPoints.PointsStand | src/tuya_ble_sdk/commands/data_points.py:41-61 | the points of a report stand in it one by one, in order: identifier, type, length and an octet string that means the value |
| DataPoints.TimestampExactly | src/tuya_ble_sdk/commands/data_points.py:17-38 | a report begins with a timestamp if and only if it starts with 1 and four octets of seconds, or 0 and thirteen that spell milliseconds, and the records begin after them |
| DataPoints.SignedRoundTrip | src/tuya_ble_sdk/commands/data_points.py:80-81 | numbers written in two's complement at any width read back over the whole range of that width |
| Commands.PairingExactly | src/tuya_ble_sdk/commands/pair.py:18-31 | the pairing record holds uuid, key material and device id in this order and zeros up to 44 octets, or the credentials are longer than that |
| Commands.InfoLaidOut | src/tuya_ble_sdk/commands/device_info.py:10-27 | a record laid out as the device does is read field by field, whatever follows it |
| Client.TuyaBleClient.constructor | src/tuya_ble_sdk/client.py:70-83 | a new client is in the initial state of the machine |
| Client.TuyaBleClient.Begin | src/tuya_ble_sdk/client.py:90-111 | a read starts by connecting and clears nothing |
| Client.TuyaBleClient.ResetSession | src/tuya_ble_sdk/client.py:148-161 | the whole state after the reset block, including what it keeps |
| Client.TuyaBleClient.Leave | src/tuya_ble_sdk/client.py:112-168 | leaving resets first and then disconnects the link if there was one |
| Client.TuyaBleClient.PreparePackets | src/tuya_ble_sdk/client.py:261-271 | the packets of a frame, or which of link, fields and version stands in the way |
| Client.TuyaBleClient.Request | src/tuya_ble_sdk/client.py:229-253 | number taken, future registered, key chosen and first write begun, or all of it undone by the failure |
| Client.TuyaBleClient.Continue | src/tuya_ble_sdk/client.py:170-203 | what each of the three answers leads to, with every error on the way |
| Client.TuyaBleClient.CollectReport | src/tuya_ble_sdk/client.py:223-224 | one report folded into the collected mapping, later points replacing earlier ones |
| Client.TuyaBleClient.DeliverInterrupt | src/tuya_ble_sdk/client.py:107-119 | where each kind of cancellation ends the read, by the point at which it is suspended |
| Client.TuyaBleClient.FinishWrite | src/tuya_ble_sdk/client.py:269-277 | the next fragment, the wait for the answer, or the error each failure of a write becomes |
| Client.TuyaBleClient.ResumeRead | src/tuya_ble_sdk/client.py:107-259 | every resumption of the read is the machine's step, and stays in the session or leaves it torn down with one disconnect of an open link |
| Client.TuyaBleClient.Cancel | src/tuya_ble_sdk/client.py:130-252 | a timer or the caller cancels the read and the future it waits on, once |
| Client.TuyaBleClient.DispatchFrame | src/tuya_ble_sdk/client.py:320-330 | a waiting request is completed, an abandoned one forgotten, anything else handled as the device's own |
| Client.TuyaBleClient.HandleCommand | src/tuya_ble_sdk/client.py:332-347 | publish before reply, nothing at all when a report cannot be read |
| Client.TuyaBleClient.OnNotification | src/tuya_ble_sdk/client.py:302-318 | one notification is the machine's step; it drops nothing but errors of the SDK, touches neither link nor keys nor the course of the read, and changes queue, counter and replies together or not at all |
| Client.TuyaBleClient.RunReplyTask | src/tuya_ble_sdk/client.py:354-380 | a scheduled reply runs one write further or ends, and touches nothing the read depends on |
| Driver.Perform | src/tuya_ble_sdk/client.py:90-380 | whatever happens next, the object takes the machine's step and the invariant holds of it |
| Driver.Drive | src/tuya_ble_sdk/client.py:70-380 | every run of the object, from its construction, is the run of the machine, and the invariant holds |
| Preservation.StepInv | src/tuya_ble_sdk/client.py:90-380 | every step, whatever the adversary chooses, keeps the invariant |
| Preservation.Reachable | src/tuya_ble_sdk/client.py:70-380 | so every state any run can reach satisfies it |
| Guarantees.NumbersNeverReused | src/tuya_ble_sdk/client.py:239-283 | the counter is one past the requests and replies issued since the reset, no two frames share a number, at most one request is pending, and 0 never is |
| Guarantees.CompletedOnce | src/tuya_ble_sdk/client.py:320-325 | each request is completed at most once, by a frame quoting its number |
| Guarantees.DuplicatesIgnored | src/tuya_ble_sdk/client.py:320-325 | a frame completes only the request it quotes, and one that quotes a completed request, or none, completes nothing |
| Guarantees.CancelledNotCompleted | src/tuya_ble_sdk/client.py:320-325 | once a wait has timed out or been cancelled no frame completes its request; what a frame quotes is not pending after it |
| Guarantees.KeyDiscipline | src/tuya_ble_sdk/client.py:170-203 | requests are a prefix of the handshake; only the first goes out under the login key and flag; everything else, replies included, under the session key that follows from this session's own device record |
| Guarantees.LastRecordKept | src/tuya_ble_sdk/client.py:192-203 | in every reachable state, authentication key and protocol version are those of the last record taken up in the run, over the ends of sessions; before any, none and 3 |
| Guarantees.KeysHeld | src/tuya_ble_sdk/client.py:292-300 | in every reachable state, a key is held under a flag if and only if it is the login key under 4, the one that follows from this session's own record under 5, or the authentication key of the last record taken up under 1 |
| Wire.WrittenInOrder | src/tuya_ble_sdk/client.py:261-277 | for every frame of a session, requests and replies alike, the packets handed to the radio are in order, without gap or repetition, the first of those it is cut into; nothing else is handed over |
| Wire.StepInOrder | src/tuya_ble_sdk/client.py:261-277 | what every step keeps of that: each write under way goes on exactly where its frame was left |
| Sending.RequestsWrittenOut | src/tuya_ble_sdk/client.py:252-274 | in every reachable state, what the read waits for an answer to has been handed over to its last packet; once it collects, and in every read that returned, all three requests have been, in order |
| Sending.SentContents | src/tuya_ble_sdk/client.py:178-218 | in every reachable state: the information and status requests carry nothing, the pairing request the credentials laid out, acknowledgements nothing; every frame announces the version of this session's record, the first one that of the last record before, or 3 |
| Sending.StepSends | src/tuya_ble_sdk/client.py:90-380 | what every step keeps of these |
| Replies.TaskBegins | src/tuya_ble_sdk/client.py:371-378 | a scheduled reply is begun, under the session key and flag 5, if and only if there is a key and a link and its fields and version fit |
| Replies.TaskGoesOn | src/tuya_ble_sdk/client.py:261-277 | every further run hands over the next packet; after the last, the whole frame has been; a failed write ends it |
| Replies.TaskStays | src/tuya_ble_sdk/client.py:148-153 | nothing but its own runs and the end of the session takes a reply away |
| Replies.ReplySentWhole | src/tuya_ble_sdk/client.py:354-380 | from any reachable state with a reply that nothing stands in the way of, its first run begins it and the following ones, if no write fails, hand over every packet |
| Guarantees.OutcomesJustified | src/tuya_ble_sdk/client.py:107-119 | every result and every error a read ends in is justified by the log of its session: replies and their contents, timers that fired, operations that failed in that way, versions that do not fit; no other error escapes |
| Guarantees.StructErrorExactly | src/tuya_ble_sdk/protocol/frame.py:47-55 | a request ends in an error outside the SDK if and only if version or number does not fit its field; otherwise it is written |
| Guarantees.CancellationOutcome | src/tuya_ble_sdk/client.py:107-119 | what each timer makes of the read, by the await it guards, and what the caller's cancellation does at every point |
| Guarantees.FailureOutcome | src/tuya_ble_sdk/client.py:121-146 | what each way of failing makes of the read, by what it awaits |
| Guarantees.EveryExitTearsDown | src/tuya_ble_sdk/client.py:107-168 | every way out of an active session leaves constructor values and disconnects an open link exactly once |
| Guarantees.LinksBalanced | src/tuya_ble_sdk/client.py:121-168 | over any run, links opened and disconnects attempted differ by the link still open, and none is between reads |
| Guarantees.DeadlineReleasesLink | src/tuya_ble_sdk/client.py:97-119 | from every point of a session, once the deadline fires, and whatever is notified, cancelled or replied in between, the read's next step leaves the session and gives the link back, under the error that says so |
| Guarantees.NotifyKeeps | src/tuya_ble_sdk/client.py:302-369 | what no notification can touch: link, keys, version, phase, result |
| Guarantees.NotifyAllOrNothing | src/tuya_ble_sdk/client.py:302-369 | for every chunk in every state only errors the callback swallows arise, and queue, counter and replies change together or not at all |
| Guarantees.ReportAllOrNothing | src/tuya_ble_sdk/client.py:332-369 | a report either parses, giving one reply that quotes it and an entry exactly when it holds a point, or changes nothing |
| Guarantees.DeviceFrame | src/tuya_ble_sdk/client.py:326-369 | what a frame that answers nothing makes of the client, by its code: 0x8001 and 0x8003 a report queued and acknowledged, 0x8011 and 0x8012 a reply, anything else nothing |
| Guarantees.CollectAllLast | src/tuya_ble_sdk/client.py:215-227 | what is collected is, for every identifier, the last point reported, and has no other keys |
| Guarantees.ReportsConserved | src/tuya_ble_sdk/client.py:215-227 | drained reports followed by queued ones are those published, in order, in every reachable state, and the result is their last points |
| Guarantees.QuietRead | src/tuya_ble_sdk/client.py:219-227 | a read that ends quietly returns what it drained, which is everything published exactly when the queue is empty at that moment |
| Guarantees.RunReplyApart | src/tuya_ble_sdk/client.py:371-380 | a reply task, well or not, changes nothing but the set of tasks and what has been sent |
| Guarantees.HighVersionSticks | src/tuya_ble_sdk/client.py:192-203 | the step at which a version of 16 or more ends the read, and the state it leaves |
| Guarantees.StuckForever | src/tuya_ble_sdk/client.py:148-168 | from there no run ever sends a frame or returns a result |
| Guarantees.LateFrames | src/tuya_ble_sdk/client.py:292-318 | between reads there is no session key; without one, only frames under the login key or an earlier session's authentication key change anything beyond what is buffered |
| Delivery.FrameDispatched | src/tuya_ble_sdk/client.py:302-318 | in any state, the fragments of a frame under a key the client has amount to exactly one dispatch of that frame |
| Conversation.PlayGoing | src/tuya_ble_sdk/client.py:90-380 | no order of a cooperating device's fragments, successful operations of the radio and reply tasks, running or failing, turns a read from its course or loses a report |
| Conversation.HonestRead | src/tuya_ble_sdk/client.py:90-227 | from every reachable point between reads and under every such order, a read that has drained its queue returns, after a quiet period, the last point of every identifier among the reports queued before it and those got through, and leaves nothing behind |
| Conversation.ReadCompletes | src/tuya_ble_sdk/client.py:90-227 | every such beginning can be continued until everything is answered and drained, or until the read balks at a version of 16 or more |
| Conversation.LateReportReturned | src/tuya_ble_sdk/client.py:148-168 | a report received under the login key during the disconnect, whatever reply tasks run meanwhile, is returned by the next read, in every order of its events |
| Conversation.HighVersionNeverReads | src/tuya_ble_sdk/client.py:192-203 | a device that announces a version of 16 or more ends the read outside the SDK's errors, in every order of the events before, and no later event lets the client send or return anything |
| SignString.LessEqExactly | src/tuya_ble_sdk/cloud/signing.py:55 | keys are ordered by the first code point in which they differ, a beginning before what it begins |
| SignString.Canonical | src/tuya_ble_sdk/cloud/signing.py:51-57 | the string depends only on the non-empty whitelisted parameters, not on their order or on any other parameter |
| SignString.CountsExactly | src/tuya_ble_sdk/cloud/signing.py:20-57 | each of the twenty parameters enters the string; what is empty or any other, the signature among them, leaves it as it is |
| SignString.SignStringExact | src/tuya_ble_sdk/cloud/signing.py:51-57 | where no such value holds a bar, equal strings mean equal parameters and conversely |
| SignString.Undone | src/tuya_ble_sdk/cloud/signing.py:51-57 | the string can be read back into exactly those parameters, sorted by key |
| SignString.AmbiguousExactly | src/tuya_ble_sdk/cloud/signing.py:51-57 | other parameters have the same string if and only if two or more enter it, or the value of the only one contains, after its first character, the start of an entry under a later whitelisted key with something after it |
| SignString.SwapTwice | src/tuya_ble_sdk/cloud/signing.py:60-64 | neighbouring blocks of eight change places, twice is the identity, and other lengths are untouched |

## Left out

- Fragments.BuildPackets: requires a payload below 2^119 octets, past which the original loop would not terminate.
- Frames.EncodeFrame: the initialization vector is a parameter; nothing is claimed about randomness or secrecy.
- Wire.WrittenInOrder: says nothing of how packets of different frames alternate, which the program leaves open.
- Conversation.HonestRead: the device speaks one frame at a time, and no timer fires before the quiet period that ends the
  read; what timers do is in `Guarantees`.
- Guarantees.LateFrames: says which frames can have an effect, not that a device would send them.
- AES itself, MD5 and HMAC: an invertible block function and an uninterpreted derivation stand for them; keys are octet
  strings of any length, where the derived ones have 16 octets and are never empty.
- Bluetooth: connecting, subscribing, writing and disconnecting are events that succeed or fail. Retries within one
  connection attempt are not seen.
- Real time: the five time limits are events that may fire whenever the await they guard is suspended; their durations are
  not modelled.
- Futures and tasks are values named by the number they were made for, not heap objects; the pending dictionary is the set
  of its keys beside the state of each future.
- One read at a time per client, as the class assumes.
- The collect loop takes one report per resumption of the read.
- UTF-8 and the decimal reading of a millisecond timestamp are partial functions given from outside; timestamps are kept
  as the integers received, not divided into floating point.
- The contents of the clock replies: they are whatever octets are handed to the callback.
- Signed datapoint commands, which the client recognises and ignores; sending datapoints, unbinding and device reset,
  which it does not implement.
- The cloud gateway beyond the sign string, the command line, the advertisement parser, logging and messages.
