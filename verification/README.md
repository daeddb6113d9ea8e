# Verified model of the MAVLink link layer, its list transfers and its clocks

This project models, in Dafny, the parts of the SDK that decide whether what one end
says is what the other end hears:

- **Framing** (`Crc`, `Wire`, `Signing`, `Parser`, `ParserRuns`, `Channel`, `Receive`,
  `RoundTrip`, `SignedRuns`). The MAVLink 1 and 2 packet formats: the checksum, the finaliser and
  serialiser, the byte-at-a-time parser, message signing with replay protection, and the
  receiver that drives the parser over datagrams. The buffers, the channel status, the
  signing state and the loops are in place (classes and arrays); each method is proved
  equal to a function on values, and the theorems are about those functions. The table of
  message entries is any non-empty sorted table and the hash is any function from byte
  strings to byte strings.
- **List transfers** (`Transfer`, `Download`, `TransferRuns`, `EndToEnd`,
  `TransferReports`, `TransferOutcomes`, `LosslessRuns`, `EarlyTimers`). The work items that
  upload and download a list (inspection waypoints, alarms, checklists and high-level
  actions are the same protocol for different contents, so the content of an item is a type
  parameter), on the ground and on the robot side, first each alone against an arbitrary
  peer and then both together with a network that loses messages, where a timer fires only
  while nothing but acknowledgements is under way and no work item waits to be started
  (`EarlyTimers` drops this). Handlers hold the item's lock, so each is one step; a timer's
  expiry and its callback are one step too.
- **Commands** (`Command`): the item that sends a command, repeats it and reports
  progress and results.
- **Timers and clocks** (`Timeouts`, `Timesync`): the timeout handler whose callbacks
  change the table that it walks through, and the clock offset exchange.
- **Rotations** (`Quaternions`): conversion between quaternions and matrices over the
  exact real numbers, with any function that computes square roots.

A theorem about "every run" quantifies over all finite sequences of events that the code
allows, started from the state its constructor leaves; one about "every reachable state"
assumes the invariant that each step is proved to keep.

## What does not hold

Each of these is proved with the input that shows it, and with the exact condition under
which the property does hold.

- A delivered message need not begin with its own marker. A MAVLink 2 marker that ends a
  dropped MAVLink 1 frame restarts the parser without clearing the version flag, and the
  bytes after it are read as a MAVLink 1 frame (`RoundTrip.MarkerAfterBadV1`). The marker
  is the message's own exactly unless it ended a MAVLink 1 frame (`ParserRuns.Soundness`,
  `RoundTrip.V1RestartsIff`).
- The framing step alone, without the reset in `mavlink_parse_char`, accepts a signed
  frame with a wrong checksum 13 bytes later (`ParserRuns.WithoutReset`).
- Outgoing timestamps increase on the wire exactly until the counter passes a multiple of
  2^48 (`Signing.WireIncreasesIff`).
- 65536 items in order pass the upload's check and are counted as 0, in both directions,
  and the other end reports success with an empty list; and a ground station that
  downloads an empty list loses its plan and sync id, because a count of 0 returns before
  they are stored. For every other list no success delivers anything else than the list
  (`TransferOutcomes.UploadExactIff`, `TransferOutcomes.DownloadExactIff`).
- A download does not compare sequence numbers. If timers fire while messages are under
  way, items can be doubled and the list that is reported as success is wrong, exactly for
  lists of which two items or more are announced (`EarlyTimers.EarlyTimersIff`).
- A download that is cancelled while its last message is under way acknowledges it all
  the same: the robot hears `Accepted` and the ground only of the cancellation, exactly if
  the ground cancels before it was given anything (`TransferOutcomes.CancelledAccepts`,
  `EndToEnd.DownloadEndToEnd`).
- An item whose first sending fails may be followed by the next one (`TransferRuns.LostItem`).
  The items of a run are sent in order exactly if every read that is answered finds all
  smaller items sent (`TransferRuns.SentInOrderIff`); and they are in order with everything
  before the position sent, all along the run, exactly if no first sending fails
  (`TransferRuns.OrderIff`).
- A report of a list transfer leaves no timer behind, except exactly when the robot refuses to
  upload a list that is out of order: its timer is armed before the list is checked
  (`TransferReports.UpReports`, `TransferReports.DownReports`).
- An acknowledgement of progress that comes before a command is started arms a timer of
  its own, and the command may then be sent twice with confirmation 0
  (`Command.EarlyProgress`). Every run keeps its promises exactly if nothing has been sent
  before the start and no progress is left unanswered (`Command.CommandRunsIff`).
- `run_once` never ends if it stands on an expired timer without a callback. Every walk
  ends exactly if every expired timer has one (`Timeouts.EveryWalkEndsIff`).

## Model

| member | source | states |
|---|---|---|
| Crc.CrcAccumulate | src/mavlink/include/mavlink/v2.0/checksum.h:35-43 | the shift-and-xor step in place computes the step that is proved to be eight divisions by the polynomial |
| Crc.CrcAccumulateBuffer | src/mavlink/include/mavlink/v2.0/checksum.h:85-91 | the loop folds a stretch of a buffer into the register, byte by byte from the left |
| Crc.CrcCalculate | src/mavlink/include/mavlink/v2.0/checksum.h:65-73 | the checksum of a stretch of a buffer from the initial value |
| Crc.AccumulateConcat | src/mavlink/include/mavlink/v2.0/checksum.h:85-91 | accumulating in pieces is accumulating the whole |
| Crc.ByteStepDivides | src/mavlink/include/mavlink/v2.0/checksum.h:35-43 | one byte step is eight steps of bit-serial reflected division by 0x8408 (appendix C of RFC 1662) |
| Crc.ChecksumDivides | src/mavlink/include/mavlink/v2.0/checksum.h:22-43 | the checksum of any buffer is the remainder of bit-serial division of its bit stream |
| Crc.CheckValue | src/mavlink/include/mavlink/v2.0/checksum.h:22-43 | the checksum of the digits 1 to 9 from the initial value is the published check value 0x6F91 |
| Crc.Residue | src/mavlink/include/mavlink/v2.0/checksum.h:27-43 | a buffer followed by its checksum, low byte first, leaves 0; followed by the complement, the good value 0xF0B8 |
| Crc.BytesDetermine | src/mavlink/include/mavlink/v2.0/mavlink_helpers.h:725-745 | a register is determined by its two bytes, so comparing both bytes compares the checksum |
| Crc.DivideInjective | src/mavlink/include/mavlink/v2.0/checksum.h:35-43 | equal registers after equal bits were equal before |
| Crc.BurstDetected | src/mavlink/include/mavlink/v2.0/checksum.h:65-73 | bit strings that differ in one burst of at most 16 bits have different checksums, whatever surrounds it |
| Crc.OddErrorsDetected | src/mavlink/include/mavlink/v2.0/checksum.h:65-73 | bit strings whose numbers of ones differ in parity have different checksums |
| Crc.AdjacentBytesDetected | src/mavlink/include/mavlink/v2.0/checksum.h:35-43 | changing one byte or two adjacent bytes of a buffer changes its checksum |
| Wire.IdDetermined | src/mavlink/include/mavlink/v2.0/mavlink_helpers.h:245-253 | three header bytes determine a message id |
| Wire.TrimPayload | src/mavlink/include/mavlink/v2.0/mavlink_helpers.h:109-115 | the loop finds the trimmed length |
| Wire.TrimUnique | src/mavlink/include/mavlink/v2.0/mavlink_helpers.h:109-115 | the trimmed length is the only one with nothing but zeros behind it and no zero before it, but at least one byte |
| Wire.FillUndoesTrim | src/mavlink/include/mavlink/v2.0/mavlink_helpers.h:736-739 | filling the trimmed payload with zeros up to its full width gives the payload back |
| Wire.GetMsgEntry | src/mavlink/include/mavlink/v2.0/mavlink_helpers.h:499-525 | bisection of any sorted, non-empty table finds the entry of an id exactly if there is one |
| Wire.SeedOfEntry | src/mavlink/include/mavlink/v2.0/mavlink_helpers.h:725-729 | every message type of a sorted table is checksummed with the seed of its own entry, any other one with 0 |
| Signing.Le48RoundTrip | src/mavlink/include/mavlink/v2.0/mavlink_helpers.h:84-90 | six bytes carry a timestamp modulo 2^48 |
| Signing.SigningState.SignPacket | src/mavlink/include/mavlink/v2.0/mavlink_helpers.h:72-100 | the block is link id, timestamp and 48 bits of the hash over key, header, payload, checksum and stamp; the timestamp then moves on by one; without the flag nothing changes |
| Signing.BlockFormat | src/mavlink/include/mavlink/v2.0/mavlink_helpers.h:72-100 | the thirteen bytes of the block: link id, timestamp with its least significant byte first, and the first six bytes of the hash over key, header, payload, checksum and the seven bytes before |
| Signing.SigningStreams.FindStream | src/mavlink/include/mavlink/v2.0/mavlink_helpers.h:155-162 | the search finds the first stream with the message's system, component and link, or the end |
| Signing.SignatureCheck | src/mavlink/include/mavlink/v2.0/mavlink_helpers.h:120-197 | verdict, signing state and stream table after a check are those of the rules on values |
| Signing.FreshIff | src/mavlink/include/mavlink/v2.0/mavlink_helpers.h:155-185 | a remembered stream accepts exactly what is newer than its last timestamp, a new one exactly if one of sixteen places is free and the timestamp is at most a minute behind |
| Signing.StepKeeps | src/mavlink/include/mavlink/v2.0/mavlink_helpers.h:120-197 | one signing or checking step keeps stream ids unique and within the table, never lowers the timestamp and puts out only what is newer |
| Signing.RunOrdered | src/mavlink/include/mavlink/v2.0/mavlink_helpers.h:72-197 | over any interleaving of signing and checking below 2^48: accepted timestamps strictly increase per stream, sent ones strictly increase and are at least every earlier accepted one |
| Signing.WireIncreasesIff | src/mavlink/include/mavlink/v2.0/mavlink_helpers.h:84-91 | of two packets in a row the second carries the larger timestamp exactly if the counter did not pass a multiple of 2^48 |
| Parser.ParseKeeps | src/mavlink/include/mavlink/v2.0/mavlink_helpers.h:571-801 | every byte keeps the parser's invariant (running checksum, indices in range, what has been consumed) and is consumed, completes a message or drops the frame |
| Parser.HeaderKeeps | src/mavlink/include/mavlink/v2.0/mavlink_helpers.h:601-713 | header bytes keep the invariant; an unknown incompatibility flag ends the frame |
| Parser.PayloadKeeps | src/mavlink/include/mavlink/v2.0/mavlink_helpers.h:716-723 | a payload byte is stored, folded into the checksum and consumed |
| Parser.Ck0Keeps | src/mavlink/include/mavlink/v2.0/mavlink_helpers.h:725-742 | the first checksum byte folds in the seed and fills the payload with zeros up to the width of its type |
| Parser.Ck1Verdict | src/mavlink/include/mavlink/v2.0/mavlink_helpers.h:744-778 | the second checksum byte ends an unsigned frame as good, bad or unsigned-but-refused, exactly by the checksum and the callback |
| Parser.SignatureKeeps | src/mavlink/include/mavlink/v2.0/mavlink_helpers.h:779-801 | signature bytes are collected, and the last one gives the verdict of the check or of the override |
| ParserRuns.Soundness | src/mavlink/include/mavlink/v2.0/mavlink_helpers.h:571-847 | on any bytes: whenever a message is returned, the bytes since the start of its frame are its complete header, payload, right checksum and, if flagged, signature; the byte that started it is its own marker exactly unless it ended a MAVLink 1 frame; and with signing set up, unless the application accepts it unsigned, its last six bytes are those of the hash of key, marker and all bytes before them |
| ParserRuns.OnlyAuthenticRemembered | src/mavlink/include/mavlink/v2.0/mavlink_helpers.h:120-197 | on any bytes: a byte that changes the signer or the remembered streams completes a delivered signed message whose last six bytes are those of that hash |
| ParserRuns.ForgedRefused | src/mavlink/include/mavlink/v2.0/mavlink_helpers.h:134-144 | a correct frame whose signature is not that of the hash is not delivered, unless the application accepts it unsigned, and signer and streams stay as they were |
| ParserRuns.StartUnique | src/mavlink/include/mavlink/v2.0/mavlink_helpers.h:581-599 | the byte that started a delivered frame is determined |
| ParserRuns.FrameRoundTrip | src/mavlink/include/mavlink/v2.0/mavlink_helpers.h:571-847 | from rest, a correct frame, signed or not, gives one answer, at its last byte: the message it carries if it passes the signing rules, nothing otherwise |
| ParserRuns.StreamRoundTrip | src/mavlink/include/mavlink/v2.0/mavlink_helpers.h:571-847 | without signing, any list of correct frames is answered once per frame, at its last byte, in order |
| ParserRuns.WrongSumDropped | src/mavlink/include/mavlink/v2.0/mavlink_helpers.h:725-801 | a frame with any other checksum gives no answer, and leaves the parser at rest or, if it ended in a marker, at a start in the same version |
| ParserRuns.DamageDetected | src/mavlink/include/mavlink/v2.0/mavlink_helpers.h:725-750 | a frame damaged in flags, sequence, addresses or payload by a burst of up to 16 bits or an odd number of bits is never delivered |
| ParserRuns.AdjacentBytesDamage | src/mavlink/include/mavlink/v2.0/checksum.h:65-73 | any change of one byte or two adjacent bytes is such damage |
| ParserRuns.Resynchronises | src/mavlink/include/mavlink/v2.0/mavlink_helpers.h:581-801 | from every reachable state, 279 bytes without a start marker bring the parser to rest, and the next correct frame, signed or not, is answered by the signing rules and without signing delivered |
| ParserRuns.WithoutReset | src/mavlink/include/mavlink/v2.0/mavlink_helpers.h:969-989 | from rest, on a channel without signing: the framing step alone rejects a signed frame with a wrong checksum at its checksum and accepts it 13 bytes later; with the reset it is dropped at its checksum and no byte of it is answered |
| Channel.Transmitter.FinalizeMessage | src/mavlink/include/mavlink/v2.0/mavlink_helpers.h:212-273 | header, checksum field, checksum bytes behind the trimmed payload, signature, sequence counter and signing state after finalising, and the length returned |
| Channel.MsgToSendBuffer | src/mavlink/include/mavlink/v2.0/mavlink_helpers.h:428-469 | the send buffer starts with exactly the frame of the message and is unchanged behind it |
| Channel.FrameChecksum | src/mavlink/include/mavlink/v2.0/mavlink_helpers.h:256-258 | the checksum covers the header after its marker, the payload and the seed |
| Receive.RxChannel.ParseByte | src/mavlink/include/mavlink/v2.0/mavlink_helpers.h:969-989 | the parser in place, over channel status, receive buffer and signing state, is the parser on values |
| Receive.RxChannel.FrameByte | src/mavlink/include/mavlink/v2.0/mavlink_helpers.h:571-801 | the framing step in place is the framing step on values |
| Receive.Receiver.Scan | src/core/mavlink_receiver.cpp:30-45 | the loop feeds the parser up to and including the next message |
| Receive.Receiver.ParseMessage | src/core/mavlink_receiver.cpp:28-51 | consumes up to and including the next message, keeps the rest, and the length falls whenever a message is found |
| Receive.Receiver.Drain | src/core/udp_connection.cpp:219-233 | the receive loop ends and returns the messages of its datagram |
| Receive.Receiver.ReceiveAll | src/core/mavlink_receiver.cpp:18-51 | however a byte stream is cut into datagrams, the messages are those of the unbroken stream |
| RoundTrip.SendsFrame | src/mavlink/include/mavlink/v2.0/mavlink_helpers.h:212-273 | serialising a finalised message gives exactly its correct frame; finalised, sent and predicted lengths agree and are at most 280 |
| RoundTrip.WireFormat | src/mavlink/include/mavlink/v2.0/mavlink_helpers.h:212-273 | the frame byte for byte: marker, length, flags, sequence, addresses and id, payload, the checksum of all but the marker and of the seed from 0xFFFF on, and the signature; the finalised message holds the checksum bytes behind its payload |
| RoundTrip.PackedStreamRoundTrip | src/mavlink/include/mavlink/v2.0/mavlink_helpers.h:212-847 | any list of messages finalised with the width and seed of their table entries and serialised one after the other is returned by the parser in order, each once, at its last byte, with the header, flags, length and checksum that were sent and the full-width payload |
| RoundTrip.DecodeUndoesPack | src/mavlink/include/mavlink/v2.0/common/mavlink_msg_attitude.h:348-363 | decoding gives back the payload that was packed, on the sender's message and on the receiver's |
| RoundTrip.ReserialiseIff | src/mavlink/include/mavlink/v2.0/mavlink_helpers.h:428-469 | re-serialising a received message gives its bytes back exactly if it is MAVLink 1 or came trimmed |
| RoundTrip.TagAgrees | src/mavlink/include/mavlink/v2.0/mavlink_helpers.h:134-142 | with equal keys the checker hashes exactly the bytes that the signer hashed |
| RoundTrip.SignedRoundTrip | src/mavlink/include/mavlink/v2.0/mavlink_helpers.h:264-270 | with equal keys a signed, serialised message is delivered as it was sent exactly if the timestamp rules of its stream or the application's override accept it, and is remembered exactly if the rules do |
| SignedRuns.SignedStreamRoundTrip | src/mavlink/include/mavlink/v2.0/mavlink_helpers.h:120-197 | from one signer to a receiver that accepts its first packet, every message of a list is delivered as it was sent, in order, each once |
| SignedRuns.Transmit | src/mavlink/include/mavlink/v2.0/mavlink_helpers.h:212-273 | finalising and serialising in place writes the frame of the packed message, signed exactly if the channel sends MAVLink 2 and its signing state says so |
| SignedRuns.ReplayRefused | src/mavlink/include/mavlink/v2.0/mavlink_helpers.h:177-185 | afterwards, whatever bytes have come in between, no frame of the list is delivered again, unless the application accepts its message unsigned, and the attempt changes nothing that is remembered |
| SignedRuns.BytesPass | src/mavlink/include/mavlink/v2.0/mavlink_helpers.h:151-197 | no bytes whatsoever make a receiver forget a stream or take its last timestamp back |
| RoundTrip.RestartKeepsVersion | src/mavlink/include/mavlink/v2.0/mavlink_helpers.h:972-987 | a frame that is dropped at a MAVLink 2 marker restarts the parser in its own version, and the next frame of that version is answered |
| RoundTrip.V1RestartsIff | src/mavlink/include/mavlink/v2.0/mavlink_helpers.h:744-778 | a MAVLink 1 frame is dropped at such a marker exactly at its second checksum byte, if a checksum byte is wrong or the message is refused as unsigned |
| RoundTrip.MarkerAfterBadV1 | src/mavlink/include/mavlink/v2.0/mavlink_helpers.h:972-987 | from rest, the bytes of a damaged MAVLink 1 frame that ends in that marker and then the body of a correct one: the second is answered without its marker |
| Transfer.UploadWorkItem.StartGround | src/core/mavlink_inspection_transfer_ground_station.cpp:67-93 | the state after a start on the ground: refused before any timer, or one timer and one count message |
| Transfer.UploadWorkItem.StartRobot | src/core/mavlink_inspection_transfer_robotic_vehicle.cpp:54-91 | the state after a start on the robot: the timer first, then the refusal or the count message |
| Transfer.UploadWorkItem.CheckOrder | src/core/mavlink_inspection_transfer_ground_station.cpp:78-84 | the loop accepts a list exactly if every item carries its own position |
| Transfer.UploadWorkItem.ProcessRead | src/core/mavlink_inspection_transfer_ground_station.cpp:148-223 | a read ahead is ignored, the next one resets the retries, an old one is answered until the retries are used up |
| Transfer.UploadWorkItem.ProcessAck | src/core/mavlink_inspection_transfer_robotic_vehicle.cpp:220-283 | an acknowledgement ends the item, with success exactly when every item has been asked for |
| Transfer.UploadWorkItem.ProcessTimeout | src/core/mavlink_inspection_transfer_ground_station.cpp:290-309 | a timeout repeats the count or ends the item |
| Transfer.UploadWorkItem.Cancel | src/core/mavlink_inspection_transfer_ground_station.cpp:95-146 | cancelling disarms, tells the peer and ends the item |
| Transfer.ConvertToIntItems | src/plugins/inspection/inspection_impl.cpp:218-239 | the loop numbers the items in sixteen bits |
| Transfer.ConvertToItems | src/plugins/inspection_robotic_vehicle/inspection_robotic_vehicle_impl.cpp:311-328 | the loop takes the numbers off again |
| Transfer.BareNumbered | src/plugins/inspection/inspection_impl.cpp:218-282 | numbering items and taking the numbers off gives the items back |
| Transfer.NumberedInOrder | src/plugins/inspection/inspection_impl.cpp:218-239 | numbered items pass the check of a start exactly for at most 65536 items |
| Download.DownloadWorkItem.StartGround | src/core/mavlink_inspection_transfer_ground_station.cpp:352-390 | the state after a start on the ground: an empty list, one timer, one request |
| Download.DownloadWorkItem.StartRobot | src/core/mavlink_inspection_transfer_robotic_vehicle.cpp:320-371 | the state after a start on the robot: success for a count of 0, else one timer and the first read |
| Download.DownloadWorkItem.ProcessCount | src/core/mavlink_inspection_transfer_ground_station.cpp:452-475 | a count of 0 is acknowledged and ends the item, another one is stored and the first item asked for |
| Download.DownloadWorkItem.ProcessItem | src/core/mavlink_inspection_transfer_robotic_vehicle.cpp:393-425 | an item is appended, and the next one asked for or the item ended |
| Download.DownloadWorkItem.ProcessTimeout | src/core/mavlink_inspection_transfer_ground_station.cpp:511-531 | a timeout repeats the last request or, after the fourth, ends the item |
| TransferRuns.UploadSafe | src/core/mavlink_inspection_transfer_ground_station.cpp:67-318 | over any run: the position stays within the list, item messages carry the list's elements, none is sent before the smaller ones unless a first sending has failed and ended the item, one report at most, success only when all items were sent, exactly one timer while at work |
| TransferRuns.OrderIff | src/core/mavlink_inspection_transfer_ground_station.cpp:183-223 | all along a run the items sent are in order and include everything before the position, exactly if no first sending of an item fails |
| TransferRuns.SentInOrderIff | src/core/mavlink_inspection_transfer_ground_station.cpp:158-223 | the items of any run are sent in order exactly if every read that is answered on the way finds all smaller items sent |
| TransferRuns.AnswerInOrderIff | src/core/mavlink_inspection_transfer_ground_station.cpp:158-181 | whatever has failed, a read that is answered keeps the order exactly if all smaller items have been sent |
| TransferRuns.LostItem | src/core/mavlink_inspection_transfer_robotic_vehicle.cpp:209-215 | after a failed sending of item 0, item 1 is sent without it |
| TransferRuns.DriveUpload | src/core/mavlink_inspection_transfer_ground_station.cpp:67-318 | the work item in place keeps all this over any events |
| TransferRuns.RetriesBounded | src/core/mavlink_inspection_transfer_robotic_vehicle.cpp:145-218 | over any run at most four transmissions follow the start or the last request in order |
| TransferRuns.DownloadSafe | src/core/mavlink_inspection_transfer_robotic_vehicle.cpp:320-447 | over any run: one report at most, exactly one timer while at work, at most four requests in a row without an answer, also once it has ended |
| TransferRuns.DriveDownload | src/core/mavlink_inspection_transfer_ground_station.cpp:352-540 | the work item in place keeps this over any events |
| TransferReports.UpReports | src/core/mavlink_inspection_transfer_ground_station.cpp:67-318 | over any run of an upload each event reports and sends exactly what it stands for, in terms of the events before and of the messages sent: which event ends it and with which result and acknowledgement; no report follows another, and a report leaves no timer but for the refusal on the robot |
| TransferReports.DownReports | src/core/mavlink_inspection_transfer_ground_station.cpp:352-540 | the same for a download, whose reports carry the items in the order of their arrival, and leave no timer |
| TransferRuns.SilentDownload | src/core/mavlink_inspection_transfer_ground_station.cpp:511-531 | with a silent peer a download repeats its last request to the fourth and then times out, from any point of it |
| TransferRuns.SilentUpload | src/core/mavlink_inspection_transfer_ground_station.cpp:290-309 | with a silent peer an upload on the ground repeats its count to the fourth and then times out |
| TransferRuns.SilentReader | src/core/mavlink_inspection_transfer_robotic_vehicle.cpp:285-290 | on the robot, or once an item was asked for, the first expiry ends an upload |
| TransferRuns.SilentFromStart | src/core/mavlink_inspection_transfer_robotic_vehicle.cpp:427-438 | from its start a download without answers ends with exactly the fourth firing |
| EndToEnd.MoveKeeps | src/core/mavlink_inspection_transfer_robotic_vehicle.cpp:320-447 | every step of both ends, the network, the queues and the application keeps the system's invariant |
| EndToEnd.UploadEndToEnd | src/core/mavlink_inspection_transfer_robotic_vehicle.cpp:393-447 | over every run with losses and no early timers, for every list: the robot's success is exactly the announced items of the ground's list with plan and sync id, the ground's accepted success comes after it, and at most four reads an item are sent |
| EndToEnd.DownloadEndToEnd | src/core/mavlink_alarm_transfer_ground_station.cpp:55-229 | the same from the robot to the ground, with one result in all; the robot's accepted success means that the ground was given the list, exactly unless the ground cancelled before it was given anything |
| LosslessRuns.LosslessCompletes | src/core/mavlink_inspection_transfer_ground_station.cpp:148-288 | every run of both ends without losses, cancellations, expired timers and failing sendings is bounded by twice the items and ten moves, and when it can go no further both ends have reported success, in either direction, for every list of up to 65535 items in order |
| LosslessRuns.Advances | src/core/mavlink_inspection_transfer_robotic_vehicle.cpp:320-447 | from every phase of such a run each possible move leads to a phase nearer to its end |
| TransferOutcomes.InTurnCompletes | src/core/mavlink_inspection_transfer_ground_station.cpp:148-288 | the run in which each message is received before anything else happens is legal and completes |
| TransferOutcomes.UserItemsArrive | src/plugins/inspection_robotic_vehicle/inspection_robotic_vehicle_impl.cpp:170-184 | the robot's user gets the items that the ground's user gave, with plan and sync id, and none for 65536 |
| TransferOutcomes.CountWraps | src/core/mavlink_inspection_transfer_ground_station.cpp:103-126 | 65536 uploaded items are counted as 0 and reported as an empty list |
| TransferOutcomes.CountWrapsDown | src/core/mavlink_inspection_transfer_robotic_vehicle.cpp:101-123 | 65536 downloaded items are counted as 0 and reported as an empty list without plan |
| TransferOutcomes.RefusedLists | src/core/mavlink_inspection_transfer_robotic_vehicle.cpp:75-81 | no run succeeds with a list whose items are not in order |
| TransferOutcomes.UploadExactIff | src/plugins/inspection/inspection_impl.cpp:109-146 | every run of an upload is exact, for every list but the ordered ones of 65536 items |
| TransferOutcomes.DeliverableIff | src/core/mavlink_inspection_transfer_ground_station.cpp:78-92 | some run delivers the user's list exactly for the lengths up to 65535 |
| TransferOutcomes.DownloadExactIff | src/core/mavlink_inspection_transfer_ground_station.cpp:452-473 | every run of a download is exact, for every list but the ordered ones of 65536 items and the empty ones that have a plan or a sync id |
| TransferOutcomes.CancelledAccepts | src/core/mavlink_inspection_transfer_ground_station.cpp:412-465 | a cancelled download acknowledges a late count: the robot reports accepted success, the ground only the cancellation |
| EarlyTimers.EarlyTimer | src/core/mavlink_inspection_transfer_robotic_vehicle.cpp:403-424 | a run, in either direction, in which a timer that does not wait doubles a read and its item, and a wrong list is reported as success |
| EarlyTimers.EarlyTimersIff | src/core/mavlink_inspection_transfer_robotic_vehicle.cpp:393-438 | with timers that do not wait, every run is still exact for exactly the lists of which at most one item is announced or that are refused |
| Command.SendWorkItem.Start | src/core/mavlink_command_transfer_ground_station.cpp:51-60 | the state after a start: one timer and the first transmission |
| Command.SendWorkItem.ProcessAck | src/core/mavlink_command_transfer_ground_station.cpp:100-125 | another command's acknowledgement changes nothing, progress re-arms and reports, anything else ends the item |
| Command.SendWorkItem.ProcessTimeout | src/core/mavlink_command_transfer_ground_station.cpp:127-138 | a timeout sends again or, after the fourth transmission, ends the item |
| Command.CommandRuns | src/core/mavlink_command_transfer_ground_station.cpp:27-152 | from construction, with a start that nothing has disturbed, over any acknowledgements and timers: the callback hears of every progress and then of what ended the command, with its acknowledgement; at most four transmissions, the i-th with confirmation i - 1; one timer until the end and none right after it |
| Command.CallsExplained | src/core/mavlink_command_transfer_ground_station.cpp:36-152 | over every run from construction: one report for each acknowledgement of progress before the end, in order, and then Success with its acknowledgement, Cancelled, ConnectionError or Timeout exactly as the first result, cancellation, refused sending or expiry after four transmissions comes |
| Command.CleanStartIff | src/core/mavlink_command_transfer_ground_station.cpp:36-60 | the start finds nothing sent and no timer armed exactly if before it no timer has sent the command and the last acknowledgement of it, not cancelled or expired since, was not of progress |
| Command.CommandRunsIff | src/core/mavlink_command_transfer_ground_station.cpp:36-152 | every run after a start keeps its promises exactly under that condition |
| Command.DriveCommand | src/core/mavlink_command_transfer_ground_station.cpp:51-152 | the work item in place keeps them over any events before and after such a start |
| Command.GrammarAlways | src/core/mavlink_command_transfer_ground_station.cpp:27-42 | the order of the reports holds from construction on, even with early acknowledgements |
| Command.EarlyProgress | src/core/mavlink_command_transfer_ground_station.cpp:36-59 | progress reported before the start makes two transmissions with confirmation 0 and two timers |
| Command.SilentCommand | src/core/mavlink_command_transfer_ground_station.cpp:127-138 | a command that nobody answers is sent four times in all and then times out |
| Timeouts.TimeoutHandler.VisitTimer | src/core/timeout_handler.cpp:57-80 | one pass of the loop: what becomes of the table, of the timers left to visit and of the restart mark, also on a timer without a callback |
| Timeouts.TimeoutHandler.RunOnce | src/core/timeout_handler.cpp:50-83 | where every walk ends, this one ends, is made of such passes, fires only timers that are expired at their turn, runs their callbacks on the table and leaves none expired |
| Timeouts.EveryWalkEndsIff | src/core/timeout_handler.cpp:56-81 | every walk over a table ends, in whatever order and with whatever restarts, exactly if every expired timer has a callback |
| Timeouts.TimeoutHandler.Add | src/core/timeout_handler.cpp:9-26 | a new timer is due its duration after the clock |
| Timeouts.TimeoutHandler.Refresh | src/core/timeout_handler.cpp:28-37 | a timer that is there is due its duration after the clock |
| Timeouts.TimeoutHandler.Remove | src/core/timeout_handler.cpp:39-48 | the timer is gone, and a walk is told so exactly if there was one |
| Timeouts.AddedFiresWhenDue | src/core/timeout_handler.cpp:9-83 | a new timer that nothing refreshes or removes is fired by a walk exactly if it looks at a clock more than the duration after the one it was added at, whatever else has happened |
| Timeouts.RefreshedFiresWhenDue | src/core/timeout_handler.cpp:28-83 | a refreshed timer is fired exactly by the first walk more than its own duration after the refresh |
| Timeouts.AddedThenRefreshed | src/core/timeout_handler.cpp:9-37 | that duration is the one that the timer was added with |
| Timeouts.RemovedNeverFires | src/core/timeout_handler.cpp:39-83 | a removed timer is not fired |
| Timeouts.FiredRightly | src/core/timeout_handler.cpp:56-81 | each fired timer was expired when the walk began, fires once, and was not refreshed or removed before |
| Timeouts.ExpiredAreDealtWith | src/core/timeout_handler.cpp:56-81 | each expired timer has fired or was refreshed or removed by one that has |
| Timeouts.OthersStay | src/core/timeout_handler.cpp:72-74 | a timer with time left that no callback touches stays as it is |
| Timeouts.FiresTheExpired | src/core/timeout_handler.cpp:56-81 | when callbacks only add timers the walk fires exactly the expired ones, in whatever order it goes |
| Timesync.TimesyncHandler.ProcessTimesync | src/core/timesync.cpp:44-62 | a request is answered once a clock is acquired, an answer becomes a sample |
| Timesync.TimesyncHandler.SetTimesyncOffset | src/core/timesync.cpp:73-103 | a sample below ten milliseconds shifts the clock, another one is counted |
| Timesync.ReplyIs | src/core/timesync.cpp:54-71 | a remote that runs the same code answers with its own time and the request's time stamp |
| Timesync.AcceptedIff | src/core/timesync.cpp:79-102 | a sample is used exactly if the remote answers with a time and the round trip is below ten milliseconds |
| Timesync.OffsetError | src/core/timesync.cpp:57-91 | after an accepted sample the corrected clock is within half the time under way of the remote one, up to two microseconds of rounding, whatever the offset was |
| Timesync.ClocksAgree | src/core/global_include.cpp:176-187 | both clocks then differ by less than 5.0015 milliseconds |
| Timesync.StaysSynchronised | src/core/timesync.cpp:44-103 | over any run of exchanges with one remote and of requests from it: the clock is acquired exactly when some sample was accepted, and stays within 5.0025 milliseconds; every request from then on is answered once, in order, with its own stamp and the right time, and none before; every sixth sample rejected in a row warns |
| Timesync.Synchronise | src/core/timesync.cpp:44-103 | the handler in place does so over any answers and requests |
| Quaternions.QuaternionToDcm | src/mavlink/include/mavlink/v2.0/mavlink_conversions.h:39-58 | the matrix in place is the matrix of the quaternion |
| Quaternions.Columns | src/mavlink/include/mavlink/v2.0/mavlink_conversions.h:39-58 | the columns of the matrix are where the quaternion turns the three axes, by `q v q*` in the product with i j = k |
| Quaternions.FindLargest | src/mavlink/include/mavlink/v2.0/mavlink_conversions.h:158-166 | the loop finds the first largest element of the diagonal |
| Quaternions.DcmToQuaternion | src/mavlink/include/mavlink/v2.0/mavlink_conversions.h:147-179 | the quaternion in place is that of the branch the matrix selects |
| Quaternions.Divisors | src/mavlink/include/mavlink/v2.0/mavlink_conversions.h:150-178 | for the matrix of a unit quaternion the component divided by is not zero, in each of the four branches |
| Quaternions.RoundTrip | src/mavlink/include/mavlink/v2.0/mavlink_conversions.h:147-179 | converting the matrix of a unit quaternion back gives the quaternion or its negative |
| Quaternions.MatrixRoundTrip | src/mavlink/include/mavlink/v2.0/mavlink_conversions.h:39-58 | so the matrix itself comes back unchanged |

## Left out

- Sockets, threads, condition variables, logging and the public plugin wrappers: the result of sending a message is a parameter (`ok`), the clock is a parameter, and every handler is one atomic step.
- The hash (SHA-256) is an uninterpreted function, and the dialect tables are any sorted table; the rule that ids in one table are distinct is part of "sorted".
- Receive statistics (`packet_rx_success_count`, `parse_error`, `current_rx_seq`, the copy to `r_mavlink_status`): they steer nothing. The compile-time option `MAVLINK_CHECK_MESSAGE_LENGTH` is off, as it is by default.
- The callback that accepts unsigned messages is a function of the message id; the source also hands it the status.
- The branch on `msg_received` in the state after a start marker: it has just been cleared, so the branch is dead.
- Fixed-width text fields: a plan identifier or name longer than its field would be cut off by the packing code; the transfer models carry texts whole. `float` contents are opaque.
- Enumeration tables (result and acknowledgement codes between wire, transfer and plugin), equality and stream operators: easy case tables.
- The payload buffers that different messages share between reuses: only what the code reads after writing is stated.
- EndToEnd.UploadEndToEnd: messages that a network duplicates by itself are not covered; those that early timers duplicate are the subject of `EarlyTimers.EarlyTimersIff`, and acknowledgements may be late and reordered.
- EndToEnd.DownloadEndToEnd: one list of the robot is fixed for the run.
- Timeouts.TimeoutHandler.RunOnce: on a table with an expired timer that has no callback nothing is stated of it, because it then need not end (`Timeouts.EveryWalkEndsIff`); insertion into the hash table during the walk is taken not to rehash, which the standard library does not promise; durations are whole clock ticks, and a callback acts by a script fixed when its timer is armed.
- Timesync.OffsetError: 64-bit overflow (doubled times overflow in 2116) and clock drift are not modelled; no other message shifts the offset during the exchange.
- Quaternions.RoundTrip: rounding of `float` and `double` is not modelled.
- `CallEveryHandler`, the work queue's `do_work` beyond starting and popping items, `MAVLinkChannels` and `SafeQueue`: their claims are one-step ones.
- `mavlink_get_info.h`: its bisections start one past the last index, so the search property does not hold there; only the one used by the parser is modelled.
- `put_bitfield_n_by_index`, the serial-port senders, the Euler conversions, `geometry.cpp` and the telemetry plugins.
