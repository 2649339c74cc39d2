# Verification of the UDS upgrade system

A Dafny model of the protocol machines in this repository, with proofs over whole runs:

- `IsoTp*.dfy`: ISO-TP segmentation and reassembly (section 6.5 of ISO 15765-2:2004): two links, two lossy channels, any
  schedule; safety under loss, completion without loss, receiver and sender against references, and 32-bit timers
  against unbounded ones.
- `Uds.dfy`, `UdsServer.dfy`, `UdsServices.dfy`, `UdsAnswering.dfy`, `UdsPromptness.dfy`, `UdsPending.dfy`,
  `UdsClock.dfy`: the UDS server's services, evaluation and poll loop (ISO 14229-1:2013): what it answers, byte by byte,
  what an observer must and must not see over every run, and by when.
- `Upgrade.dfy`, `UpgradeServer.dfy`, `SeedKey.dfy`, `SecurityHandshake.dfy`, `SecurityRuns.dfy`: the
  application behind the server, its file and its security keys.
- `FileTransfer*.dfy`, `ProgramSoc.dfy`: the Python client's file transfer to that server, over channels with losses and
  timeouts.
- `Scheduler*.dfy`, `ModuleConfig.dfy`, `EcuModules.dfy`: the module upgrade scheduler with its configuration and its
  recursive walk over dependencies.
- `Requests.dfy`, `ReadData.dfy`, `Download*.dfy`: encoders and decoders of client and server, reading of several records, and
  the C client's download sequence.
- `Prelude.dfy`, `Bytes.dfy`, `BigEndian.dfy`, `Clock.dfy`: optional values, bytes, numbers and clocks.

Code that updates objects in place is a class (`IsoTpLink`, `UdsServer`, `UpgradeServer`, `Module`, `Modules`,
`DownloadClient`); each method states its whole new state as a function of the old one, and the lemmas are about those
functions. Time, arrivals, losses, the file system, random bytes and the answers of jobs are parameters, universally
quantified over.

The size of the transport buffers, `UDS_TP_MTU`, is any number from the header's default of 4095
(`upgrade_server/include/iso14229.h:116-118`) to 65535, which the build sets (`upgrade_server/Makefile:4` and `:9`):
`Uds.MTU` has no value in the model, so that every result holds for the build. The ISO-TP buffers have any size.

The download sequence of the C client is proved with two applications behind the server: the one of this repository, which
refuses downloads (`upgrade_server/src/upgrade_server.cpp:266-270`), and a hypothetical one that stores what it is sent as
this repository's does for file transfers.

Some statements that one would expect do not hold of the code. The code is modelled as it is; a case that fails is shown,
and the exact condition is proved:

- payloads above 4095 bytes are truncated by the first frame (`TruncationIsReached`, `UnchangedIffAnnounceable`); it takes a
  larger send buffer than `UDS_ISOTP_MTU` (`upgrade_server/include/iso14229.h:114`);
- a reserved separation time in a flow control frame is read as 0 (`UnderstoodIffNotReserved`, `ReservedTimeIsIgnored`);
- a failed 0x23 request is answered with what was copied (`ShortCopyOccurs`, `ResponseShape`);
- a key check answered "pending" counts as a failed attempt (`PendingKeyCheck`), and an ECU reset granted after a pending
  answer leaves the server receiving (`PendingIsTransparent`);
- the retry of the Python client never repairs a lost response (`CompletesIffClean`);
- a job constructor that raises keeps the scheduler's loop from ever ending unless a failure elsewhere comes first
  (`OneRaisingModule`, `EndsIff`); as `upgrade_client/upgrade_job.py:11` indexes parameters that
  `upgrade_client/ecu_modules.py:42-44` nests one level deeper, this is the ordinary case;
- an address and length message one byte short is accepted (`DecidedIffComplete`);
- an even mask makes two seeds share a key (`EvenMaskCollides`, `DistinctKeysIffOddMask`);
- an application that ignores the copy function's result, as this one does, answers partially what does not fit
  (`CarelessFullIffFits`, `CarelessIsPacked`); this one's answers always fit 5866 bytes (`ApplicationAnswers`,
  `LongestNeedsBuffer`), so that it takes a smaller buffer than the build's, such as the header's default
  (`PartialAnswerOccurs`);
- of 256 or more identifiers only the count modulo 256 is answered (`AnswerIsFullOrDenied`, `CarelessFullIffFits`);
- after a failed transfer the file stays open, and the next transfer loses the handle (`ServeDangles`, `RunBalances`);
- the C download sequence reaches its end even if the server refuses the data (`SequenceEndsRegardless`,
  `StoredIffAnnounced`), though not if it refuses the request (`ThisApplicationRefuses`).

The test for reserved security levels names three conditions, but after its mask to six bits only level 0 is left; the
model follows the code.

## Model

| member | source | states |
|---|---|---|
| IsoTp.SendKeepsValid | upgrade_server/src/iso14229.c:3207-3252 | sending keeps the link invariant: the sequence number of a sender in progress is its consecutive-frame index modulo 16 |
| IsoTp.PollKeepsValid | upgrade_server/src/iso14229.c:3450-3494 | a poll keeps the link invariant and emits at most one frame |
| IsoTp.OnCanMessageKeepsValid | upgrade_server/src/iso14229.c:3254-3400 | whatever bytes arrive, offset, sequence number and block count of a receiver in progress agree, a sender has at most one pending WAIT, and at most one frame is answered |
| IsoTpReassembly.ConsecutiveRefines | upgrade_server/src/iso14229.c:3160-3187 | taking a consecutive frame does what an independent reassembler does: the k-th must carry k modulo 16 and seven bytes or the rest |
| IsoTpReassembly.ReceiverAssembles | upgrade_server/src/iso14229.c:3114-3187 | in every run of a link under arbitrary frames the receive buffer begins with exactly the bytes accepted so far, and a full receiver holds the whole message |
| IsoTpReassembly.FetchHandsOut | upgrade_server/src/iso14229.c:3402-3420 | in every run isotp_receive hands out the beginning of the message that the reference has assembled, as far as the caller has room, and nothing if there is none |
| IsoTpReassembly.FrameAnswered | upgrade_server/src/iso14229.c:3286-3353 | whatever arrives, the link answers what the reference answers: a grant for a first frame and behind every eighth consecutive frame of an incomplete message, a refusal for want of room |
| IsoTpReassembly.StepReports | upgrade_server/src/iso14229.c:3268-3330 | with every input the receiver reports the reference's protocol result: unexpected frames, wrong numbers, overflow, timeout |
| IsoTpNetwork.SequenceNumberDecides | upgrade_server/src/iso14229.c:3160-3166 | a sender at most 8 consecutive frames ahead: equal 4-bit sequence numbers mean equal frame indices |
| IsoTpNetwork.TakeFrame | upgrade_server/src/iso14229.c:3160-3187 | the expected frame extends the received prefix of the payload, and a grant is sent exactly at a block boundary before the end |
| IsoTpNetwork.StepKeeps | upgrade_server/src/iso14229.c:3254-3400 | every step of the two links and lossy channels keeps the invariant that the receiver holds a prefix and the sender is inside the granted blocks |
| IsoTpNetwork.SafeUnderLoss | upgrade_server/src/iso14229.c:3207-3400 | for one message from fresh links over channels that lose any frames, whenever the receiver reports FULL it holds the payload as announced |
| IsoTpNetwork.ReceivesPayload | upgrade_server/src/iso14229.c:3402-3420 | under the same losses: isotp_receive hands the application exactly the first min(room, size) bytes of the payload (size modulo 4096) once a message is complete, and nothing otherwise |
| IsoTpNetwork.UnchangedIffAnnounceable | upgrade_server/src/iso14229.c:3053-3075 | delivery is of the whole payload if and only if its size fits the 12-bit length of a first frame (at most 4095) |
| IsoTpNetwork.TruncationIsReached | upgrade_server/src/iso14229.c:3207-3221 | the failing case occurs: with a send buffer that holds it, a payload of 4096 bytes or more whose size is 8 modulo 4096 is reported complete with 8 bytes |
| IsoTpCompletion.CountsDecide | upgrade_server/src/iso14229.c:3305-3353 | frame counts of a lossless transfer never exceed the totals, which are reached exactly when the payload is there |
| IsoTpCompletion.Completes | upgrade_server/src/iso14229.c:3207-3492 | without losses and expired timers every schedule that delivers all frames ends with the payload, after N = ceil((n-6)/7) consecutive frames and 1 + floor((N-1)/8) flow controls |
| IsoTpCompletion.StepMovesOrIdles | upgrade_server/src/iso14229.c:3450-3484 | the measure: a step of a lossless schedule changes nothing or raises the bounded frame counts by one |
| IsoTpCompletion.RoundMoves | upgrade_server/src/iso14229.c:3450-3484 | from a lossless state a round of sender poll and both deliveries raises the counts unless the receiver has the message |
| IsoTpCompletion.RoundsComplete | upgrade_server/src/iso14229.c:3207-3492 | so 2N + 1 + F rounds, for N consecutive and F flow control frames, end with the payload delivered |
| IsoTpCompletion.SingleCompletes | upgrade_server/src/iso14229.c:3027-3051 | on every lossless schedule a payload of up to 7 bytes is under way in its only frame, or there |
| IsoTpSending.SenderTalks | upgrade_server/src/iso14229.c:3207-3494 | in every run under arbitrary frames, polls and requests the sender sends exactly the frames that an independent reference sends, is in progress exactly while that one is, and reports its errors |
| IsoTpSending.NoneOverstays | upgrade_server/src/iso14229.c:3479-3483 | no poll leaves a sender in progress more than 100 ms after its last frame and the last flow control; a poll so late that sends nothing ends it with TIMEOUT_BS |
| IsoTpSending.SenderObeys | upgrade_server/src/iso14229.c:3456-3470 | no consecutive frame without a flow control, at most as many under one as its block size allows, two under the same more than its STmin apart |
| IsoTpSending.RefusalEnds | upgrade_server/src/iso14229.c:3366-3381 | an overflow frame ends the sender, and so does a second wait frame |
| IsoTpSending.SilentUntilAsked | upgrade_server/src/iso14229.c:3450-3453 | a sender that has ended sends nothing, whatever happens, until it is asked to send |
| IsoTpSending.UnderstoodIffNotReserved | upgrade_server/src/iso14229.c:2989-3002 | STmin is read as ISO 15765-2 says if and only if its value is not reserved; a reserved one is read as 0 instead of 127 ms |
| IsoTpSending.ReservedTimeIsIgnored | upgrade_server/src/iso14229.c:2989-3002 | the failing case occurs: after a flow control with a reserved STmin two frames leave at the same time |
| IsoTpClock.WrapOnCanMessage | upgrade_server/src/iso14229.c:3254-3400 | a frame handled with 32-bit timers has the effect of unbounded timers, wrapped |
| IsoTpClock.WrapRun | upgrade_server/src/iso14229.c:3450-3494 | runs of the two links with 32-bit timers are the runs with unbounded clocks while all compared times are less than 2^31 apart |
| IsoTpClock.WrapRunFromStart | upgrade_server/src/iso14229.c:3207-3252 | the same from the call that sends a message on |
| IsoTpLinks.IsoTpLink.constructor | upgrade_server/src/iso14229.c:3422-3447 | initialises the link (the new state as a function of the old one) |
| IsoTpLinks.IsoTpLink.SendFirstFrame | upgrade_server/src/iso14229.c:3053-3075 | emits length and six bytes, and advances only if the driver took the frame (the new state as a function of the old one) |
| IsoTpLinks.IsoTpLink.SendConsecutiveFrame | upgrade_server/src/iso14229.c:3077-3112 | emits the next up to seven bytes under the current sequence number (the new state as a function of the old one) |
| IsoTpLinks.IsoTpLink.SendWithId | upgrade_server/src/iso14229.c:3207-3252 | takes the payload into the buffer in place and starts it, or refuses it while busy or too long (the new state as a function of the old one) |
| IsoTpLinks.IsoTpLink.Poll | upgrade_server/src/iso14229.c:3450-3494 | sends what flow control and separation time allow, and checks both timers (the new state as a function of the old one) |
| IsoTpLinks.IsoTpLink.ReceiveSingleFrame | upgrade_server/src/iso14229.c:3114-3126 | copies the data of a well-formed single frame into the buffer (the new state as a function of the old one) |
| IsoTpLinks.IsoTpLink.ReceiveFirstFrame | upgrade_server/src/iso14229.c:3128-3158 | copies the first six bytes of a message that fits, and sets its size (the new state as a function of the old one) |
| IsoTpLinks.IsoTpLink.ReceiveConsecutiveFrame | upgrade_server/src/iso14229.c:3160-3187 | appends the frame's bytes in place exactly if the number is the expected one (the new state as a function of the old one) |
| IsoTpLinks.IsoTpLink.OnFlowControlFrame | upgrade_server/src/iso14229.c:3361-3395 | continues, waits or gives up as the flow status says (the new state as a function of the old one) |
| IsoTpLinks.IsoTpLink.OnCanMessage | upgrade_server/src/iso14229.c:3254-3400 | the whole new state of the link and the frames answered, for any bytes from the bus (the new state as a function of the old one) |
| IsoTpLinks.IsoTpLink.Receive | upgrade_server/src/iso14229.c:3402-3420 | hands out a complete message and frees the receiver (the new state as a function of the old one) |
| Clock.TimeAfterDistance | upgrade_server/include/iso14229.h:198-200 | for all readings, the comparison is true exactly if the wrapped distance is between 1 and 2^31 |
| Clock.TimeAfterIsAfter | upgrade_server/include/iso14229.h:953 | less than 2^31 apart, the wrapping comparison is the true one |
| Clock.HalfPeriodIsTooFar | upgrade_server/include/iso14229.h:198-200 | 2^31 apart the comparison fails: each reading is after the other |
| UdsAnswering.ResponseShape | upgrade_server/src/iso14229.c:1733-1821 | for all fifteen handlers, every request and every answer of the user function: the response fits, is empty exactly if a suppression rule of section 7.5.5 of ISO 14229-1:2013 applies, and is otherwise 7F/SID/code or starts with SID + 0x40; a failure is returned without a negative response if and only if 0x23 copied another number of bytes than asked for; services without a handler are always answered |
| UdsAnswering.ShortCopyOccurs | upgrade_server/src/iso14229.c:1155-1163 | that exception occurs |
| UdsAnswering.AnsweredOnce | upgrade_server/src/iso14229.c:1849-1931 | in every run an accepted request gets pending responses, then exactly one other send, then one acknowledgement; a pending state implies a request in progress |
| UdsAnswering.OneAnswerPerRequest | upgrade_server/src/iso14229.c:1881-1903 | as many final answers as acknowledgements, and one per accepted request but the open one |
| UdsAnswering.Paced | upgrade_server/src/iso14229.c:1881-1903 | two sends are more than min(p2, 0.3 p2*) apart, two pending responses to one request more than 0.3 p2* (ISO 14229-2:2013, table 4) |
| UdsPromptness.AnsweredInTime | upgrade_server/src/iso14229.c:1881-1903 | in every run a poll more than max(p2, 0.3 p2*) after the last send or the end of a pending answer sends and acknowledges the response to a request in progress, or 7F SID 78 while its answer is pending |
| UdsPromptness.SendsExactlyWhenDue | upgrade_server/src/iso14229.c:1874-1903 | in every run a poll sends if and only if a request is in progress and its time has come: p2 after a final send or the end of a pending answer, 0.3 p2* after a pending one |
| UdsPromptness.AnsweredAtOnce | upgrade_server/src/iso14229.c:1905-1930 | a ready server accepts a request; unless it is answered pending, exactly its response is sent and acknowledged by the first poll that is late enough, before anything else |
| UdsPromptness.AnsweredAfterPending | upgrade_server/src/iso14229.c:1864-1879 | a request that stops being pending is answered with its response by the first poll more than p2 later |
| UdsPromptness.PendingRequestAnswered | upgrade_server/src/iso14229.c:1864-1903 | over any number of pending answers: the one final answer sent is the response to the request in the state in which it was accepted (key checks excepted) |
| UdsPromptness.ReadyUnlessReset | upgrade_server/src/iso14229.c:1905-1908 | in every run a server without a request in progress is ready for the next one if and only if it has not been told to reset at once |
| UdsServices.SessionAnswer | upgrade_server/src/iso14229.c:937-982 | the evaluation of every request with 0x10: when the user function is asked, which code is returned, and the response in bytes: session, p2 and p2*/10 |
| UdsServices.ResetAnswer | upgrade_server/src/iso14229.c:984-1020 | the evaluation of every request with 0x11: when the user function is asked, which code is returned, and the response in bytes: the kind of reset, and the power down time for a rapid shutdown |
| UdsServices.ReadAnswer | upgrade_server/src/iso14229.c:1035-1074 | the evaluation of every request with 0x22: when the user function is asked, which code is returned, and the response in bytes: the walk over the identifiers |
| UdsServices.MemoryAnswer | upgrade_server/src/iso14229.c:1133-1163 | the evaluation of every request with 0x23: when the user function is asked, which code is returned, and the response in bytes: exactly the bytes asked for, with the failure that is returned without a negative response |
| UdsServices.SecurityRefused | upgrade_server/src/iso14229.c:1169-1179 | the evaluation of every request with 0x27: when the user function is asked, which code is returned, and the response in bytes: reserved levels and the two delays |
| UdsServices.KeyAnswer | upgrade_server/src/iso14229.c:1185-1209 | the evaluation of every request with 0x27: when the user function is asked, which code is returned, and the response in bytes: keys, with the level or the delay that follows |
| UdsServices.SeedAnswer | upgrade_server/src/iso14229.c:1211-1243 | the evaluation of every request with 0x27: when the user function is asked, which code is returned, and the response in bytes: seeds, zero where the level is unlocked |
| UdsServices.CommunicationAnswer | upgrade_server/src/iso14229.c:1248-1270 | the evaluation of every request with 0x28: when the user function is asked, which code is returned, and the response in bytes: the control type |
| UdsServices.WriteAnswer | upgrade_server/src/iso14229.c:1272-1301 | the evaluation of every request with 0x2E: when the user function is asked, which code is returned, and the response in bytes: the identifier |
| UdsServices.RoutineAnswer | upgrade_server/src/iso14229.c:1303-1339 | the evaluation of every request with 0x31: when the user function is asked, which code is returned, and the response in bytes: control type, routine and status record |
| UdsServices.LoadAnswer | upgrade_server/src/iso14229.c:1349-1467 | the evaluation of every request with 0x34 and 0x35: when the user function is asked, which code is returned, and the response in bytes: the block length, and the transfer that is started |
| UdsServices.BlockAnswer | upgrade_server/src/iso14229.c:1469-1527 | the evaluation of every request with 0x36: when the user function is asked, which code is returned, and the response in bytes: the block number, and the transfer after it |
| UdsServices.ExitAnswer | upgrade_server/src/iso14229.c:1529-1557 | the evaluation of every request with 0x37: when the user function is asked, which code is returned, and the response in bytes: the record, and the transfer after it |
| UdsServices.FileAnswer | upgrade_server/src/iso14229.c:1558-1628 | the evaluation of every request with 0x38: when the user function is asked, which code is returned, and the response in bytes: mode, block length and format, and the transfer that is started |
| UdsServices.TesterAnswer | upgrade_server/src/iso14229.c:1630-1647 | the evaluation of every request with 0x3E: when the user function is asked, which code is returned, and the response in bytes: zero |
| UdsServices.DtcSettingAnswer | upgrade_server/src/iso14229.c:1649-1659 | the evaluation of every request with 0x85: when the user function is asked, which code is returned, and the response in bytes: the setting type |
| UdsServices.OtherAnswer | upgrade_server/src/iso14229.c:1733-1741 | every other request is refused with 0x11, without asking the user function, even if it was for everyone |
| UdsAnswering.AttemptsAdmitted | upgrade_server/src/iso14229.c:1165-1200 | no seed and no key is looked at in the boot delay nor within 1000 ms after a failed key |
| UdsAnswering.FailureRate | upgrade_server/src/iso14229.c:1194-1200 | any window of T ms of any run holds at most T/1001 + 1 failed key checks |
| UdsPending.PendingIsTransparent | upgrade_server/src/iso14229.c:1864-1879 | a request answered pending any number of times leaves transfer state, security state and response as if the final answer had come at once (key checks excepted); and the server as ready to receive, except after exactly a positively answered ECU reset |
| UdsPending.CounterAdvancesOnce | upgrade_server/src/iso14229.c:1485-1492 | the block counter advances once per accepted TransferData request, however many pending rounds follow |
| UdsPending.PendingKeyCheck | upgrade_server/src/iso14229.c:1194-1199 | the exception, exactly: a key check answered pending is evaluated as if for the first time if and only if more than 1000 ms have passed |
| UdsClock.WrapRun | upgrade_server/src/iso14229.c:1849-1931 | server runs with 32-bit timers are the runs with unbounded clocks while the times that a poll does compare are less than 2^31 apart: P2 for a request in progress, the security timers only when a security request is evaluated |
| UdsServers.UdsServer.constructor | upgrade_server/src/iso14229.c:1834-1847 | the initial state with its timers (the new state as a function of the old one) |
| UdsServers.UdsServer.NegativeResponse | upgrade_server/src/iso14229.c:918-924 | leaves 7F, the request's SID and the code (the new state as a function of the old one) |
| UdsServers.UdsServer.SafeCopy | upgrade_server/src/iso14229.c:1022-1033 | appends if there is room and reports whether there was (the new state as a function of the old one) |
| UdsServers.UdsServer.ResetTransfer | upgrade_server/src/iso14229.c:1341-1347 | ends the transfer and sets the counter to 1 (the new state as a function of the old one) |
| UdsServers.UdsServer.DecodeAddressAndLength | upgrade_server/src/iso14229.c:1088-1131 | address and size, or the code for a bad message (the new state as a function of the old one) |
| UdsServers.UdsServer.RequestLoad | upgrade_server/src/iso14229.c:1349-1467 | both load services: state, response and whether the application was asked (the new state as a function of the old one) |
| UdsServers.UdsServer.ParseFileRequest | upgrade_server/src/iso14229.c:1568-1600 | the fields of a file transfer request (the new state as a function of the old one) |
| UdsServers.UdsServer.RequestFileTransfer | upgrade_server/src/iso14229.c:1558-1628 | state, response and whether the application was asked (the new state as a function of the old one) |
| UdsServers.UdsServer.TransferData | upgrade_server/src/iso14229.c:1469-1527 | state, response and whether the application was asked, pending or not (the new state as a function of the old one) |
| UdsServers.UdsServer.RequestTransferExit | upgrade_server/src/iso14229.c:1529-1557 | state, response and whether the application was asked (the new state as a function of the old one) |
| UdsServers.UdsServer.DiagnosticSessionControl | upgrade_server/src/iso14229.c:937-982 | timings and session type, or the refusal (the new state as a function of the old one) |
| UdsServers.UdsServer.EcuReset | upgrade_server/src/iso14229.c:984-1020 | reset type and power down time, or the refusal (the new state as a function of the old one) |
| UdsServers.UdsServer.ReadDataByIdentifier | upgrade_server/src/iso14229.c:1035-1076 | the walk over the identifiers in the send buffer (the new state as a function of the old one) |
| UdsServers.UdsServer.ReadMemoryByAddress | upgrade_server/src/iso14229.c:1133-1163 | the copied bytes, with the failure that is returned without a negative response (the new state as a function of the old one) |
| UdsServers.UdsServer.CommunicationControl | upgrade_server/src/iso14229.c:1248-1270 | the control type, or the refusal (the new state as a function of the old one) |
| UdsServers.UdsServer.WriteDataByIdentifier | upgrade_server/src/iso14229.c:1272-1301 | the identifier, or the refusal (the new state as a function of the old one) |
| UdsServers.UdsServer.RoutineControl | upgrade_server/src/iso14229.c:1303-1339 | the routine and its status record, or the refusal (the new state as a function of the old one) |
| UdsServers.UdsServer.TesterPresent | upgrade_server/src/iso14229.c:1630-1647 | the empty answer, or the refusal (the new state as a function of the old one) |
| UdsServers.UdsServer.ControlDtcSetting | upgrade_server/src/iso14229.c:1649-1659 | the setting type, or the refusal (the new state as a function of the old one) |
| UdsServers.UdsServer.SecurityAccess | upgrade_server/src/iso14229.c:1165-1246 | state, response and whether the application was asked (the new state as a function of the old one) |
| UdsServers.UdsServer.Evaluate | upgrade_server/src/iso14229.c:1733-1823 | dispatch, and suppression of responses (the new state as a function of the old one) |
| UdsServers.UdsServer.SendResponse | upgrade_server/src/iso14229.c:1881-1903 | the send and the acknowledgement when the P2 timer allows (the new state as a function of the old one) |
| UdsServers.UdsServer.Poll | upgrade_server/src/iso14229.c:1849-1931 | one poll: the whole new state and everything observable (the new state as a function of the old one) |
| Upgrade.ServeTransferData | upgrade_server/src/iso14229.c:1494-1527 | a positive TransferData means exactly the request's data was appended to the file; any other outcome ends the transfer |
| Upgrade.ServeConserves | upgrade_server/src/upgrade_server.cpp:276-320 | every request keeps: while active, the file is open and holds exactly the counted bytes, at most the total; no null handle is closed |
| Upgrade.ServeDangles | upgrade_server/src/upgrade_server.cpp:276-320 | the file stays open without a transfer exactly from a TransferData that ends the transfer until a file transfer request, which overwrites the handle |
| Upgrade.ServeBalances | upgrade_server/src/upgrade_server.cpp:291-320 | every request keeps: opened handles are closed, open or lost; it loses one exactly if it is a file transfer request passed to the application while a file is open |
| Upgrade.RunBalances | upgrade_server/src/upgrade_server.cpp:291-320 | over every run as many handles are lost as requests of that kind are evaluated |
| Upgrade.RunConserves | upgrade_server/src/upgrade_server.cpp:276-300 | the same over every run of the poll loop with the application, for any requests and any file system |
| UpgradeServers.UpgradeServer.HandleRequestFileTransfer | upgrade_server/src/upgrade_server.cpp:301-320 | names the file after the last part of the path, opens and truncates it, or refuses |
| UpgradeServers.UpgradeServer.HandleTransferData | upgrade_server/src/upgrade_server.cpp:276-290 | appends what the file system takes, and is positive exactly if that is everything |
| UpgradeServers.UpgradeServer.HandleRequestTransferExit | upgrade_server/src/upgrade_server.cpp:291-300 | closes the open file |
| UpgradeServers.UpgradeServer.HandleRequestSeed | upgrade_server/src/upgrade_server.cpp:39-53 | keeps and returns the random word |
| UpgradeServers.UpgradeServer.HandleValidateKey | upgrade_server/src/upgrade_server.cpp:55-76 | positive exactly for four bytes that are the key of the kept seed |
| FileTransfer.ServeBlock | upgrade_server/src/iso14229.c:1469-1527 | library and application together: what a data block does in each state of the transfer |
| FileTransferSafety.CounterDecides | upgrade_server/src/iso14229.c:1485-1492 | block numbers at most one apart are equal if their 8-bit counters are |
| FileTransferSafety.StepKeeps | upgrade_client/uds_client.py:399-411 | every send, delivery, loss and timeout keeps the invariant of the transfer |
| FileTransferSafety.PrefixUnderLoss | upgrade_client/uds_client.py:399-411 | over every run with any losses and timeouts: while active, the file is the first k blocks, k being the client's index or one more; a client that ends well leaves the whole source |
| FileTransferSafety.ExitMeansComplete | upgrade_server/src/iso14229.c:1529-1557 | a positive answer to the exit request, received or not, means the file equals the source |
| FileTransferSafety.ResentBlockResets | upgrade_server/src/iso14229.c:1485-1492 | an already accepted block that arrives again ends the transfer and is not written |
| FileTransferSafety.RefusalIsFinal | upgrade_client/uds_client.py:401-410 | over every run: a client that waits for the answer to a block goes on with the next block or the final request on the positive response with its number, and sends nothing ever again after any other |
| FileTransferSafety.TimeoutRepeatsBlocksOnly | upgrade_client/uds_client.py:404-405 | over every run: a timeout repeats the request for a block, and ends the transfer while the first or the final request is unanswered |
| FileTransferCompletion.CompletesCalmly | upgrade_client/uds_client.py:391-411 | without losses, on every schedule: done exactly after b + 2 requests and responses, with the whole file; before that a message is always under way |
| ProgramSoc.TransferBlock | upgrade_client/uds_client.py:399-410 | the retry loop of one block, against the function of the attempts |
| ProgramSoc.ProgramSoc | upgrade_client/uds_client.py:390-411 | the whole loop, against the function of the attempts |
| ProgramSoc.CompletesIffClean | upgrade_client/uds_client.py:399-411 | the transfer completes if and only if every block's first request to arrive is written and answered: a retry repairs lost requests, never lost responses |
| ProgramSoc.AbortsIffRefused | upgrade_client/uds_client.py:401-410 | for every script: it ends with an exception if and only if the server was busy, the first or the final request was not answered or the file not created, a block that arrived was not written, or a response arrived after the response to a block had been lost |
| SchedulerSafety.DependenciesFirst | upgrade_client/ecu_modules.py:65-105 | in every state of every run: direct and indirect dependencies of a started module are done and successful; no exit while a job runs; a clean exit means all done and successful |
| SchedulerSafety.RoundOnlyAdvances | upgrade_client/ecu_modules.py:38-44 | done is final, started stays started, nothing starts after an error: each module starts at most once |
| SchedulerTermination.StartFinds | upgrade_client/ecu_modules.py:65-74 | a start phase that does not raise leaves all modules finished or some module upgrading, on every graph |
| SchedulerTermination.EndsIffNeverStuck | upgrade_client/ecu_modules.py:80-103 | for every graph and finite jobs the loop ends, within a fixed number of rounds, if and only if no job constructor raises in the run (SchedulerSchedule.EndsIff says when in terms of the configuration) |
| SchedulerTermination.StuckForever | upgrade_client/ecu_modules.py:41-44 | after a raising constructor the loop never exits |
| SchedulerTermination.Ends | upgrade_client/ecu_modules.py:80-103 | it ends whenever all constructors succeed, even on cyclic graphs |
| SchedulerSuccess.FitsIffShortChains | upgrade_client/ecu_modules.py:65-72 | the recursion stays within the interpreter's limit exactly if no chain of dependencies is longer |
| SchedulerSuccess.CyclesNeverFit | upgrade_client/ecu_modules.py:69-72 | from a cycle the recursion exceeds every limit |
| SchedulerSuccess.RanksFit | upgrade_client/ecu_modules.py:69-72 | a topological rank bounds the recursion |
| SchedulerSuccess.SucceedsIff | upgrade_client/ecu_modules.py:76-105 | the upgrade ends without an error if and only if every job constructs, runs without an exception and succeeds, and no chain of dependencies exceeds the limit |
| SchedulerSchedule.EndsIff | upgrade_client/ecu_modules.py:76-105 | for every configuration and jobs of any kind: if the chains fit, the loop ends if and only if EndsIffFailuresFirst's condition holds; if they do not, if and only if the first depth-first walk meets a chain too deep before a module without dependencies whose constructor raises |
| SchedulerSchedule.EndsIffFailuresFirst | upgrade_client/ecu_modules.py:76-105 | if the chains fit, the loop ends if and only if every module whose constructor raises would start in a later round than one in which some job shows a failure; the start rounds follow from the lengths of the jobs along the longest chains |
| SchedulerSchedule.NextRound | upgrade_client/ecu_modules.py:80-103 | as long as no job has shown a failure, every module starts and ends in exactly its round; the first round that differs is stuck or has shown a failure |
| SchedulerSuccess.EndsIffConstructs | upgrade_client/ecu_modules.py:41-44 | in particular, if the chains fit and every job that can be constructed is good, it ends if and only if every job can be constructed |
| SchedulerSuccess.OneRaisingModule | upgrade_client/ecu_modules.py:41-44 | one module whose constructor raises is stuck after the first round, and the loop never ends |
| ModuleConfig.DictionaryIsIt | upgrade_client/ecu_modules.py:52-55 | the dictionary has each configured name once, with its last entry |
| ModuleConfig.ConfiguredIff | upgrade_client/ecu_modules.py:57-63 | the constructor raises if and only if a module depends on an unknown name; otherwise every module is linked, in order, to the modules it names, without itself |
| EcuModules.Module.CheckUpgradeDone | upgrade_client/ecu_modules.py:27-33 | one look at the job |
| EcuModules.Module.Upgrade | upgrade_client/ecu_modules.py:38-44 | starts the job once; the flag is set even if the constructor raises |
| EcuModules.Modules.constructor | upgrade_client/ecu_modules.py:49-63 | modules linked to the modules they depend on |
| EcuModules.Modules.UpgradeModule | upgrade_client/ecu_modules.py:65-74 | the recursive walk, with the modules it starts and whether it raises |
| EcuModules.Modules.UpgradeDependens | upgrade_client/ecu_modules.py:69-72 | the loop over the dependencies and its flag |
| EcuModules.Modules.CheckAll | upgrade_client/ecu_modules.py:87-98 | the check loop and its flags |
| EcuModules.Modules.Pass | upgrade_client/ecu_modules.py:80-103 | one pass of the polling loop |
| EcuModules.Modules.UpgradeFor | upgrade_client/ecu_modules.py:80-103 | any number of passes, for any jobs, raising constructors included |
| EcuModules.LoadModules | upgrade_client/ecu_modules.py:50-63 | the linked modules of a configuration, or nothing where the constructor raises |
| EcuModules.Modules.Upgrade | upgrade_client/ecu_modules.py:76-105 | the whole loop, for exactly the configurations of EndsIff: it ends, no job is left running, and it succeeds exactly under the condition of SucceedsIff |
| SeedKey.SeedToKey | security_alg/src/security_alg.c:7-23 | the 32-step loop computes the key function, with the zero seed as no special case |
| SeedKey.KeyToSeed | security_alg/src/security_alg.c:7-23 | an inverse loop: for an odd mask it finds the only seed of a key |
| SeedKey.DistinctKeysIffOddMask | security_alg/src/security_alg.c:7-23 | different seeds have different keys if and only if the mask is odd; then every word is a key |
| SeedKey.KeyLinear | security_alg/src/security_alg.c:11-18 | the key of an exclusive or is the exclusive or of the keys, for every mask |
| SeedKey.KeyOfOneIsMask | security_alg/src/security_alg.c:11-18 | the key of 1 is the mask, and a step on the seed is a step on the key: with linearity this determines every key |
| SecurityHandshake.SeedIsHandedOut | upgrade_server/src/iso14229.c:1219-1243 | the response carries the random bytes |
| SecurityHandshake.UnlocksForTheKeyOnly | upgrade_server/src/upgrade_server.cpp:55-76 | after a seed, the level is unlocked by exactly the key that the client computes from the response (and never for a reserved sub-function); any other key leaves the level and starts the delay |
| SecurityRuns.LevelAfterPoll | upgrade_server/src/iso14229.c:1165-1209 | a poll of server and application changes the security level if and only if it evaluates the key of the seed kept, after the delays |
| SecurityRuns.LevelIsUnlocked | upgrade_server/src/iso14229.c:1165-1209 | in every run the level is the initial one or was unlocked by the key of the seed kept at that time |
| SecurityRuns.SeedIsHandedOut | upgrade_server/src/upgrade_server.cpp:39-53 | in every run the seed kept is the initial one or was handed out in the run |
| SecurityRuns.InitialKey | upgrade_server/src/upgrade_server.cpp:55-60 | until a seed is handed out the seed kept is 0, and its key is 0 |
| BigEndian.DecodeEncode | upgrade_server/src/iso14229.c:1118-1129 | decoding an encoded number gives it modulo 256^width |
| Requests.EncodeNumber | upgrade_server/src/iso14229.c:431-439 | the encoders' loop writes the big-endian bytes |
| Requests.LoadRoundTrip | upgrade_server/src/iso14229.c:415-443 | the server reads back address and size, modulo 256^width, for all widths that it accepts |
| Requests.DecidedIffComplete | upgrade_server/src/iso14229.c:1114-1129 | the decoded values depend on the message alone if and only if it is complete; one byte short, a stale byte of the receive buffer enters the size |
| Requests.GrantedIff | upgrade_server/src/iso14229.c:1349-1413 | a complete download request is granted exactly if no transfer is active and the application agrees to a block length of at least 3; then the sent size and block 1 are expected |
| Requests.BlockLengthRecovered | upgrade_server/src/iso14229.c:802-825 | the client recovers the granted block length, at most one message |
| Requests.SendFileRequest | upgrade_server/src/iso14229.c:545-589 | the encoder's message for every mode and path, of which it sends the size modulo 65536 in bytes, or its error for none and for a message too long |
| Requests.FileRequestRoundTrip | upgrade_server/src/iso14229.c:1568-1600 | mode, path, format and both sizes come back, the sizes modulo 256^width, for widths up to 8 |
| Requests.PlainRoundTrip | upgrade_server/src/iso14229.c:545-571 | for the modes without sizes mode, path and format come back, though the message is one stale byte too long |
| Requests.FileRequestOpens | upgrade_server/src/iso14229.c:545-589 | such a message meets what the theorems about whole file transfers ask of the opening request |
| ReadData.SendRDBI | upgrade_server/src/iso14229.c:330-349 | the client's message, or its error if the identifiers do not fit |
| ReadData.AnswerIsFullOrDenied | upgrade_server/src/iso14229.c:1035-1074 | the server's evaluation, for a careful application and any readings: of c identifiers the server takes c mod 256, answers in full if and only if none is refused and they fit, and otherwise denies; never partially |
| ReadData.CarelessFullIffFits | upgrade_server/src/upgrade_server.cpp:90-122 | for an application that ignores the copy's result, as this one does, and any transport buffer: of c identifiers the server takes c mod 256, and answers these in full if and only if that fits |
| ReadData.CarelessIsPacked | upgrade_server/src/iso14229.c:1056-1058 | otherwise it is a denial if an identifier fails the check for three more bytes, and else a positive answer of the greedily packed length |
| ReadData.ApplicationAnswers | upgrade_server/src/upgrade_server.cpp:90-122 | this application with a transport buffer of at least 5866 bytes, as built: the answer to every request is full if all identifiers taken are known, and otherwise a refusal |
| ReadData.LongestNeedsBuffer | upgrade_server/src/upgrade_server.cpp:93-105 | 5866 bytes are necessary: its longest answer is full if and only if the buffer has them |
| ReadData.PartialAnswerOccurs | upgrade_server/src/upgrade_server.cpp:93-117 | built with the header's default of 4095 bytes instead, it answers a request of known identifiers positively without the last record |
| ReadData.ReadIsSent | upgrade_server/src/iso14229.c:1881-1903 | in a run of the server with this application, as built: a request for up to 255 known identifiers is accepted, and the first poll that is late enough sends the full answer, which the client unpacks |
| ReadData.UnpackResponse | upgrade_server/src/iso14229.c:881-907 | the client's loop with its running offset |
| ReadData.ReadRoundTrip | upgrade_server/src/iso14229.c:881-907 | up to 255 identifiers that are not refused and fit come back whole and in order; otherwise the response is a denial |
| DownloadClients.DownloadClient.PollLowLevel | upgrade_server/src/iso14229.c:156-240 | one step of the request state machine (the new state as a function of the old one) |
| DownloadClients.DownloadClient.SendNextBlock | upgrade_server/src/iso14229.c:512-526 | the next block of the file under the running counter (the new state as a function of the old one) |
| DownloadClients.DownloadClient.ActiveCallback | upgrade_server/src/iso14229.c:671-721 | the active callback of the sequence (the new state as a function of the old one) |
| DownloadClients.DownloadClient.Poll | upgrade_server/src/iso14229.c:827-863 | one poll of the client (the new state as a function of the old one) |
| Download.EveryRunFollowsTheScript | upgrade_server/src/iso14229.c:671-742 | whatever is answered, the client has sent a beginning of the script for the granted block length, and all of it at the end of the sequence |
| Download.MessagesCarryTheFile | upgrade_server/src/iso14229.c:512-526 | floor(size/(L-2)) + 1 data messages, counted 1, 2, ... modulo 256, whose payloads concatenate to the file; all but the last are full, the last holds size mod (L-2) bytes |
| Download.FailsIffTrouble | upgrade_server/src/iso14229.c:200-230 | in every run the download fails if and only if it meets a timeout, a response that is not one to its request or an unusable grant, and issues nothing afterwards |
| Download.OneMessageAtATime | upgrade_server/src/iso14229.c:104-113 | in every run as many messages are issued as final responses taken, and one more while it waits; a pending response is no answer |
| DownloadCompletion.PollSmooth | upgrade_server/src/iso14229.c:827-863 | the measure: a poll changes nothing or brings the end nearer, but for the delay of a pending response; a prompt poll does change something until the end |
| DownloadCompletion.DownloadEnds | upgrade_server/src/iso14229.c:827-879 | with a server that grants L and answers, with any delays and pending responses: a bound on the polls that change anything, and after so many prompt ones the end, with the script sent |
| DownloadSystem.ThisApplicationRefuses | upgrade_server/src/upgrade_server.cpp:266-270 | client, server and this repository's application together, in every run: only the request is sent, nothing is written, the end is never reached, and eight prompt polls fail at the check of the response |
| DownloadSystem.PositiveIffStored | upgrade_server/src/iso14229.c:671-742 | with an application that grants and stores downloads instead, in every run and for any file system: at the end of the sequence the script has been sent, and the last response is positive if and only if the server's file is the job's |
| DownloadSystem.StoredIffAnnounced | upgrade_server/src/iso14229.c:1494-1497 | with that application and a file system that does what it is asked: at the end of the sequence the server's file is the job's if and only if the announced size covers it, and so is the last response positive |
| DownloadSystem.SequenceEndsRegardless | upgrade_server/src/iso14229.c:84-86 | with them the sequence reaches its end whatever size was announced, also where the server refuses the data: a negative response is no error to the client |

## Left out

- UdsServers.UdsServer.Poll: the clock is read once per poll, where the code reads it at each use; session timeout and scheduled reset events, which only call the user function, and transport errors of a send are not modelled.
- IsoTpLinks.IsoTpLink.Poll: the clock is read once per call, and a failure of the CAN driver is a parameter; a flow control frame that the driver refuses is one that the bus loses.
- IsoTpLinks.IsoTpLink.OnCanMessage: the same.
- UdsServers.UdsServer.SendResponse: transport errors of the send, as for Poll.
- UdsServers.UdsServer.TransferData: the byte counter is unbounded, where the code's size_t could wrap after 2^64 bytes.
- UdsServers.UdsServer.ParseFileRequest: bytes behind the receive buffer, which a long announced path makes the code read, are modelled as 0.
- Download.EveryRunFollowsTheScript: a granted block length below 3 or above the size of a message stops the sequence, where the code would fail an assertion or overrun its buffer; the server of this repository grants neither for downloads.
- DownloadClients.DownloadClient.ActiveCallback: the same granted block lengths; so for DownloadCompletion and DownloadSystem.
- Requests.EncodeNumber: widths above 4, for which the C client shifts an int by its width or more, which C leaves undefined.
- Requests.SendLoadRequest: the same widths.
- Requests.SendFileRequest: the same widths.
- Requests.BlockLengthRecovered: bytes behind a response that is shorter than its announced width, which the client reads from its receive buffer, are modelled as 0; the server sends no such response.
- UdsServers.UdsServer.SecurityAccess: the clock is read once, where the code reads it up to three times.
- UdsServers.UdsServer.DiagnosticSessionControl: the session type and its timer, which only decide when the session timeout event is emitted, are not part of the state.
- UdsServers.UdsServer.TesterPresent: the session timer, which it restarts, as for DiagnosticSessionControl.
- UdsServers.UdsServer.EcuReset: the scheduled reset and its timer, which only decide when that event is emitted.
- UdsServers.UdsServer.ReadMemoryByAddress: the user function copies at most once; so for the other services with a copy function.
- FileTransferSafety.PrefixUnderLoss: the server handles each request in one step, as in DownloadSystem; UdsPending.PendingIsTransparent and UdsAnswering.OneAnswerPerRequest show that its poll loop amounts to that.
- ProgramSoc.ProgramSoc: the block count is computed with integers, where the code divides floats, which is exact below 2^53 bytes; responses are checked as udsoncan does (service identifier and echoed counter), and udsoncan itself is not part of this model.
- EcuModules.Modules.UpgradeModule: the recursion limit counts calls of upgrade_module only, not the frames of the calls that it makes in turn.
- EcuModules.Modules.Upgrade: requires that the loop ends, by SchedulerSchedule.EndsIff the exact condition on the configuration; UpgradeFor covers the others, pass by pass.
- The alias of two ISO-TP links on one receive buffer for functional addressing; several ISO-TP messages in a row with stale flow control frames; reordering and duplication on the bus.
- Download.FailsIffTrouble: the byte behind a negative response of two bytes, which the client reads from its receive buffer, is not taken for a response-pending code.
- DownloadClients.DownloadClient.PollLowLevel: a transport that takes only part of a message, or fails, is not modelled.
- DownloadClients.DownloadClient.Poll: the same transport.
- UDSClientPoll's behaviour for functionally addressed requests, and client services that only fill a buffer.
- DownLoadFW returns inside its segment loop, so that only the first segment is sent; its inner loop is the one modelled for ProgramSoc.
- The JSON syntax of the scheduler's configuration and the threads of its jobs.
- Sockets, DoIP connections, SocketCAN, the mock transport, hex files, checksums, routines, progress reporting and logging.
