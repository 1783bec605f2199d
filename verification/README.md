# A model of the RTK base station's firmware, with proofs

The repository is the firmware of a GNSS base station: a receiver delivers RTCM corrections over a
serial line, the firmware cuts them into frames, checks them and distributes them to three upstream
casters and to clients on the local network; apart from that it surveys its own position, logs raw
observations to RINEX files on an SD card and offers a web interface. This project models the parts
of it that carry the hard logic and proves what they are for. Each part is stated twice: as functions
on values, about which the properties are proved as lemmas over every input and every run, and, where
the source works on fields, buffers and loops, as classes and methods proved to take the same steps.

## Parts

| modules | what they model |
|---|---|
| Common, Bits | sequences, bytes, bits |
| Crc24q | the CRC-24Q of RTCM 10403.3, section 4, as a register over GF(2), and the loops that compute it |
| Polynomials, CrcNumber | remainders of polynomials over GF(2), given as numbers, and that the CRC is the one by 0x1864CFB |
| Deframer, FrameStream | the byte-at-a-time RTCM parser and the whole-stream description it refines |
| Batch, Mailbox | the local caster's time batch; the sixteen slots of newest corrections and their sent masks |
| StreamGate, Station, BaseStation | modes, gates and the station as a whole: first as a state machine, then as the object with its parts |
| GateReasons, StationTrace | why each gate is shut and when each destination is due, told by looking back over a run, of the gates, of the mailbox and of the whole station |
| SendLoop, SendAnswers, NtripPush, PushQueue, NtripPushClient, SendQueue | the upstream sender: send loop and when it succeeds, worker, what its queue holds and loses over a run, object, and the queue under interleaving |
| LocalCaster, CasterQueue, LocalCasterTask | the local caster, what its queue holds and whom a turn serves, and its slot arrays |
| Distribution | the station and its four senders together, from the bytes received to the sockets |
| SdCard, SdDelete, SdPath, SdPreview, SdManager | a card with failing system calls; recursive delete, its guards on the text of a path, and its preview |
| CasterSuspend, ClientSuspend | the two suspend handshakes, with program counters and single steps |
| Base64, Base64Text, Json, JsonText, LogBuffer, Csv | text and bytes: encoder against decoder and both against RFC 4648, escaper against reader and both against RFC 8259, the log ring, field scanning |
| Statistics, Survey, Satellites | survey statistics over the reals; the satellite list |
| GpsTime, RinexText, RinexSat, RinexSignals, RinexFeed, RinexStream, RinexFile, RinexColumns, RinexPatch, RinexLog, RinexLogger | the calendar, printing, identifiers and merging, which column a signal belongs in, message framing and its whole-stream description, files, what a reader finds in their columns, what many in-place patches leave of them, whole runs, and the object on its stream |
| RinexHeader, RinexAntenna, RinexValidator, RinexAccepted, RinexWide | the header's lines, the antenna's and what a reader may take it for, the repository's own validator, exactly which files it accepts, and runs that leave others |

The environment is not trusted. Socket answers, connection attempts, the results of unlink, rmdir,
opendir and fopen, the clock, the random words, the answers of push and the interleaving of tasks are
parameters or free choices, and the properties hold for all of them.

## What turned out different from the text around the code

Where a comment or a natural expectation and the code disagree, the model follows the code; the exact
conditions are proved.

- `suspendAndWait` of src/ntrip_client.h:89-102 promises to wait until the worker has closed the
  socket. `requestSuspend` clears the acknowledgement before it raises the request, so an
  acknowledgement of an earlier, withdrawn request can land in between and the call returns true over
  an open socket. `ClientSuspend.SocketTrustedIff` gives the exact condition,
  `ClientSuspend.OvertakingHappens` a schedule from the start of the program. Calls under a request
  that is still in force, as when a survey is followed by a transmission (src/main.cpp:89-92,
  114-117), always find the socket closed; but a packet accepted before the request can enter the
  queue after the worker emptied it, and then the call returns true over a full queue
  (`ClientSuspend.TrustworthyIff`, `ClientSuspend.CrowdingHappens`).
- The caster's variant in src/ntrip_caster.h is sound for clients, accepts and writes. Its queue need
  not be empty: `CasterSuspend.QueueTrustedIff` gives the exact condition at the start of the call,
  `CasterSuspend.UntrustedQueueHappens` a schedule that violates it.
- The rate window of main/base_station.cpp:225-271 is not restarted by a mode change, so the gate for
  the upstream senders is not a measurement over a full window since the transition; no such claim is
  made. What is proved is that it closes at the transition and opens only at the end of a window.
- The RINEX header is patched in place on the assumption of equal line widths. A longer line
  overwrites the beginning of the next one, and a shorter one leaves a rest of the longer. The file is
  the plain rendering exactly when its newest time is as wide as its first and none is wider
  (`RinexPatch.RenderedIff`), so whenever its years fit six columns (`RinexPatch.NarrowIsSteady`);
  GPS weeks beyond some fifty million need more columns, and since nothing in the logger asks whether
  time goes on, one such week followed by one of today leaves a file that is not the rendering
  (`RinexWide.UnrenderedFileHappens`). The validator does not mind (`RinexAccepted.AcceptedIff`). A
  year is cut to the 32 bits of `tm_year` (`GpsTime.CalendarReadsBack`).
- The antenna's name and radome go into the header as they are, and the form that takes them
  (main/web_server.cpp:1728-1744) checks their lengths only. The validator rejects every file whose
  antenna columns spell the words that end a header, and every file whose antenna columns are a line
  break and the label `SYS / # / OBS TYPES`, which then declares a constellation S that has no
  records; it accepts all others, line breaks in the columns or not (`RinexAccepted.AcceptedIff`,
  `RinexAccepted.SpoofedStation`, `RinexAccepted.EndingStation`, `RinexWide.RefusedFileHappens`).
- `json_escape` drops the control characters it has no short form for, so the round trip holds exactly
  for texts without them (`Json.ReaderUndoesPrinter`), and `json_string_array` accepts a body that
  ends right after an element (`Json.ReadBackUnterminated`). Its hexadecimal escapes go through strtol
  and so may contain blanks, a sign or 0x (`JsonText.LooseNumberIsRead`); apart from that it reads the
  strings of RFC 8259 and nothing else (`JsonText.ReadsEverySpelling`, `JsonText.OnlySpellings`).
- A log cursor of zero never reports a loss (`LogBuffer.ZeroCursorIsSilent`).
- The 300 s condition of a survey never decides (`Survey.TimeGateNeverDecides`).
- QZSS is in the table of main/rinex_satid.h, but no QZSS signal has a band, so such a satellite is
  never logged. Raw GLONASS numbers 1 to 24 and the same numbers plus 37 name the same satellites
  (`RinexSat.SameSatId`), and the merge keeps them apart by their raw number.

## Model

| member | source | states |
|---|---|---|
| Crc24q.ShiftLinear | main/base_station.cpp:655-658 | One bit step of the register is linear over GF(2): a step of a sum is the sum of the steps |
| Crc24q.ShiftInjective | main/base_station.cpp:655-658 | One bit step of the register is injective on 24-bit states |
| Crc24q.FeedLinear | main/base_station.cpp:653-660 | Feeding a sum of messages gives the sum of the registers |
| Crc24q.FeedInjective | main/base_station.cpp:653-660 | Two registers that agree after the same message agreed before it |
| Crc24q.ZeroAfter | main/base_station.cpp:651-661 | Up to 24 bits bring the register to zero exactly when it holds those bits |
| Crc24q.CodewordIffZero | main/base_station.cpp:485-496 | Three further bytes leave zero exactly when they are the CRC of what came before |
| Crc24q.BurstChangesRegister | main/base_station.cpp:651-661 | Two messages that differ only inside 24 consecutive bits never have the same CRC |
| Crc24q.AddingUpFront | main/base_station.cpp:654-655 | XOR of a byte into the top of the register, then eight steps, is the same as feeding its bits one by one |
| Crc24q.StoredShift | main/base_station.cpp:656-658 | A step on the 32-bit word of the program is a step of the 24-bit register: the 24-bit bound holds at every inner step |
| Crc24q.AddByte | main/base_station.cpp:654-659 | The inner loop feeds exactly one byte, whatever the register |
| Crc24q.ComputeCrc | main/base_station.cpp:651-661 | The two nested loops compute the register of the definition, for every byte string; CrcNumber.CrcIsRemainder says which number it is |
| Polynomials.RemainderUnique | main/base_station.cpp:651-661 | Over GF(2) a number has at most one remainder below 2^24 by 0x1864CFB |
| Polynomials.RemainderIs | main/base_station.cpp:651-661 | Long division finds it |
| CrcNumber.GeneratorIs | main/base_station.cpp:656-658 | The bits of the register's generator are the number 0x864CFB, and those of the XORed constant 0x1864CFB |
| CrcNumber.CrcIsRemainder | main/base_station.cpp:651-661 | The CRC of a byte string is the remainder of its polynomial times x^24 by 0x1864CFB, in arithmetic that knows neither the register nor its steps |
| CrcNumber.MatchesIffRemainder | main/base_station.cpp:485-496 | A capture passes exactly when its last three bytes are that remainder of the bytes before them |
| CrcNumber.ShortestFrame | main/base_station.cpp:453-497 | D3 00 00 47 EA 4B is a frame the receiver accepts |
| Deframer.FeedConcat | main/base_station.cpp:437-451 | How the input is cut into reads does not change what is published or what is buffered |
| Deframer.CheckCrc | main/base_station.cpp:485-496 | The comparison at the end of a capture answers exactly whether the CRC field matches |
| Deframer.RtcmDeframer.Reset | main/base_station.cpp:499-502 | Drops the capture; what was published stays |
| Deframer.RtcmDeframer.FeedByte | main/base_station.cpp:453-497 | One byte in the buffer is one step of the parser; the returned frame is the one this byte completes, and only a CRC-valid one is returned |
| Deframer.RtcmDeframer.FeedAll | main/base_station.cpp:437-451 | A whole read, byte by byte through the buffer, is the parser run over its bytes |
| FrameStream.SpanAt | main/base_station.cpp:453-483 | Every capture lies inside the stream and is at most 1029 bytes long |
| FrameStream.SpansInOrder | main/base_station.cpp:453-483 | Captures are disjoint and in stream order |
| FrameStream.FeedWhole | main/base_station.cpp:453-497 | A complete capture is published exactly when its CRC holds, and leaves the parser idle either way |
| FrameStream.WholeIff | main/base_station.cpp:459-483 | A capture is complete exactly if it begins with 0xD3, six clear reserved bits and a ten-bit count of payload bytes to which header and CRC add six |
| FrameStream.FeedToStart | main/base_station.cpp:453-470 | Resynchronisation: bytes up to the next possible start leave an idle parser idle, even preambles that begin nothing |
| FrameStream.FeedIsGreedy | main/base_station.cpp:453-502 | Refinement: on any stream, the published frames are exactly the CRC-valid slices of the greedy whole-stream description, in order, and the buffer is its unfinished capture |
| FrameStream.ScanIsGreedy | main/base_station.cpp:453-502 | Every stream has a greedy description |
| FrameStream.GreedyUnique | main/base_station.cpp:453-502 | No stream has two greedy descriptions: the description determines the frames |
| FrameStream.EncodeIsFrame | main/base_station.cpp:453-497 | A payload of at most 1023 bytes with header and CRC is a frame the receiver accepts |
| FrameStream.FrameIsEncoded | main/base_station.cpp:453-497 | Every frame the receiver accepts is such an encoded payload: encoding and accepting are inverse |
| FrameStream.TransmissionReceived | main/base_station.cpp:437-502 | A stream of encoded payloads with 0xD3-free filler is received frame for frame |
| FrameStream.BurstDropped | main/base_station.cpp:485-497 | A frame with a nonzero error confined to 24 consecutive bits of its payload and CRC bytes is dropped, and the parser is idle again |
| FrameStream.MatchesIffZero | main/base_station.cpp:485-497 | A frame passes exactly when the CRC over the whole frame, CRC field included, is zero |
| Batch.PublishConserves | main/base_station.cpp:528-555 | Frames flushed and then frames held are what was there before followed by the new frame, whole and in order |
| Batch.PublishBounded | main/base_station.cpp:528-555 | At most 12 frames and 1200 bytes are held |
| Batch.PublishTimely | main/base_station.cpp:528-565 | After a publication, for a clock that does not run backwards, the deadline is ahead of the clock and within 200 ms of every frame held |
| Batch.RunInvariant | main/base_station.cpp:515-565 | Conservation, capacity and deadlines after every run of publications and polls |
| Batch.HeldFramesAreFresh | main/base_station.cpp:528-565 | At the end of every publish or due-flush call no held frame is 200 ms old |
| Batch.LeavesWhenDue | main/base_station.cpp:528-565 | After every sound run a poll hands on everything that waits if 200 ms have passed since frames last left, or the first of those waiting came, and nothing otherwise; a publication hands on what waits if there is no room for the new frame behind it within twelve frames and 1200 bytes, everything with the new frame if the 200 ms have passed, and nothing otherwise |
| Batch.RtcmBatch.FlushFrames | main/base_station.cpp:515-526 | One call of the sender per frame, with exactly the frames' bytes cut at the recorded ends |
| Batch.RtcmBatch.MakeRoom | main/base_station.cpp:532-539 | Flushes exactly when the bytes or the frame count would not fit, and leaves room |
| Batch.RtcmBatch.Append | main/base_station.cpp:540-542 | The new frame is behind the held ones in the byte buffer, and its end is recorded |
| Batch.RtcmBatch.PublishTo | main/base_station.cpp:528-555 | The buffers hold the specified batch after every publication, and the sender got what left it |
| Batch.RtcmBatch.FlushIfDue | main/base_station.cpp:557-565 | A poll flushes exactly when something is held and its deadline has come |
| Batch.RtcmBatch.Reset | main/base_station.cpp:504-513 | What waits is thrown away, what was handed on stays |
| Mailbox.PublishUpdatesMap | main/base_station.cpp:574-602 | The used slots are a map of at most 16 message numbers to frames; publishing updates it at one number, and a further type leaves all of it as it was |
| Mailbox.TargetFull | main/base_station.cpp:576-595 | No slot is found exactly when 16 other types are held |
| Mailbox.SlotsDecideMap | main/base_station.cpp:596-601 | Overwriting one slot changes the map at that number alone |
| Mailbox.PublishKeepsInv | main/base_station.cpp:574-602 | Every used slot holds the newest frame of its type and its sent bits tell which destination has that version |
| Mailbox.OfferKeepsInv | main/base_station.cpp:609-617 | One turn of the destination loop keeps that, for either answer of push |
| Mailbox.TickKeepsInv | main/base_station.cpp:604-619 | A whole tick of a destination keeps the mailbox invariant, for any answers of push |
| Mailbox.RunKeepsInv | main/base_station.cpp:504-631 | Every run of publications, ticks and resets with arbitrary answers keeps the mailbox invariant |
| Mailbox.AtMostOnce | main/base_station.cpp:604-619 | In every run from power-up a destination accepts only published frames, no publication twice, and those of one type in the order of their publication |
| Mailbox.OffersOnlyMark | main/base_station.cpp:609-617 | A tick changes nothing but the bit of its own destination |
| Mailbox.TickHandsNewest | main/base_station.cpp:604-619 | Everything a tick hands over is at that moment the newest frame of its type |
| Mailbox.DueTickCatchesUp | main/base_station.cpp:604-619 | A due tick at which nothing is refused leaves the destination with the newest frame of every type held |
| Mailbox.RefusedStaysPending | main/base_station.cpp:611-616 | A refused frame stays pending and is offered again at the next due tick |
| Mailbox.MessageNumberIs | main/base_station.cpp:567-572 | The message number is the first twelve bits of the payload as transmitted |
| Mailbox.DeadlineIsDueAt | main/base_station.cpp:504-618 | In every run the deadline of a destination is told by times alone: 200 ms after its last due tick, or 200 ms and 50 ms times its place after the last reset |
| Mailbox.PollsOnTime | main/base_station.cpp:604-619 | In every run a poll of a destination that is due hands it the newest frame of every type it has not got and takes, and marks nothing it refuses; a poll that comes too early changes nothing |
| Mailbox.CorrectionMailbox.FindTarget | main/base_station.cpp:576-590 | The two searches find the slot of the type, else a free one, else none |
| Mailbox.CorrectionMailbox.PublishToCorrections | main/base_station.cpp:574-602 | The slot array changes as the specified mailbox does |
| Mailbox.CorrectionMailbox.FlushDestinationIfDue | main/base_station.cpp:604-619 | The tick on the slot array is the specified tick, whose due time Mailbox.DeadlineIsDueAt tells; the frames offered are the pending ones in slot order |
| Mailbox.CorrectionMailbox.ResetState | main/base_station.cpp:504-513 | All slots are free again |
| StreamGate.NextKeepsInv | main/base_station.cpp:277-417 | Every action keeps each sender's flag equal to its predicate, and raw collection implies transmit mode with an active logger |
| StreamGate.RunKeepsInv | main/base_station.cpp:277-417 | In every run from power-up each sender's flag equals its predicate after every step, and raw collection implies transmit mode with an active logger |
| StreamGate.ShutWithoutFrame | main/base_station.cpp:400-417 | Without a frame the gates stay shut whatever else happens |
| StreamGate.QuietAfterTransition | main/base_station.cpp:304-398 | From a mode change, the end of raw collection or a receiver reset until the next CRC-valid frame all four senders stay suspended |
| StreamGate.NoUpstreamBeforeRate | main/base_station.cpp:405-408 | The upstream senders stay suspended, in addition, until a rate window reaches the minimum |
| StreamGate.RateGateLatches | main/base_station.cpp:257-271 | Over every run without a transition, whatever the user, the network and later windows do, an open rate gate stays open and the upstream senders wait for nothing but the stream and the network |
| StreamGate.OnlyTransitionsShut | main/base_station.cpp:257-398 | An open rate gate is shut by a step exactly when the step is a transition |
| GateReasons.FlagsAreReasons | main/base_station.cpp:160-417 | In every run from the start the local caster is suspended if and only if a look back over the steps finds a suspension in force, the streams switched off, the station not transmitting, or no frame heard since it last forgot; the upstream senders, in addition, if the network is down or no window has reached 900 since |
| GateReasons.OffUntilEnabled | main/base_station.cpp:165-170 | From switching the streams off all four senders stay suspended until they are switched on |
| GateReasons.OffUntilLifted | main/base_station.cpp:160-163 | From a transient suspension until it is lifted |
| GateReasons.OffUntilTransmitting | main/base_station.cpp:304-372 | While a survey runs or raw data is collected |
| GateReasons.UpstreamOffUntilOnline | main/base_station.cpp:177-183 | From the loss of the network until it is back all three upstream senders are suspended |
| GateReasons.RunsWithoutReason | main/base_station.cpp:400-417 | With none of these reasons the local caster runs, and with network and rate the upstream senders |
| Station.StepKeepsInv | main/base_station.cpp:217-661 | Every byte, poll, action and switch keeps the invariants of parser, batch, mailbox and gates together, and nothing waits while the gates must be empty |
| Station.BootKeepsInv | main/base_station.cpp:217-224 | The station starts in a state that meets the invariants of all its parts |
| Station.NoStaleCorrections | main/base_station.cpp:304-398 | Corrections received before a mode change, a receiver reset or raw collection are never handed to an upstream caster after it, in any run |
| Station.QuietUntilFrame | main/base_station.cpp:304-417 | From every step that discards what was received, all four senders stay suspended until the deframer completes a CRC-valid frame from the bytes received since, whatever bytes, polls and requests come meanwhile |
| Station.PolledFramesAreFresh | main/base_station.cpp:504-565 | In every run of the whole station from power-up, through any modes, resets and discards, no frame still held for the local caster after a poll has waited for 200 ms |
| Station.LocalStreamIsGoodCaptures | main/base_station.cpp:437-565 | While transmitting, what the local caster is given, followed by what still waits, grows by exactly the CRC-valid captures of the bytes received |
| StationTrace.StationFlags | main/base_station.cpp:217-661 | In every run of the whole station, on its bytes, polls and requests, the senders' flags are those reasons |
| StationTrace.StationMail | main/base_station.cpp:217-661 | In every run its mailbox is that of the publications, ticks and resets its bytes, polls and requests amount to |
| StationTrace.StationPollsOnTime | main/base_station.cpp:504-631 | In every run of the whole station a poll serves each upstream destination exactly when 200 ms have passed since the last one that did, or 200 ms and its share of the stagger since the last discard |
| Distribution.NextKeepsFresh | main/base_station.cpp:217-661 | One call of the station, with any turns of the four senders' tasks and any pushes of what the call offers in between, sends and queues nothing older than what is named |
| Distribution.OnlyFramesGoOut | main/base_station.cpp:217-661 | In every run of the station with its four senders from power-on, whatever bytes arrive, whatever is asked and whatever the networks do: on every upstream socket stand the request and whole CRC-valid frames the deframer completed, on every local client's the greeting and such frames, and before a close at most one strict beginning of such a frame |
| Distribution.NothingOldGoesOut | main/base_station.cpp:304-417 | After every step that discards what was received, all four senders take up to send only frames completed after it, whatever was queued, held or half delivered then |
| Distribution.RunObeys | main/base_station.cpp:217-417 | The station goes through its own run whatever the senders' tasks do, and they keep the flags it gives them |
| Distribution.SuspendedForAReason | main/base_station.cpp:217-417 | In every run from power-on each of the four senders is suspended if and only if the steps so far give one of the reasons for it |
| BaseStation.BaseStation.ApplyStreamState | main/base_station.cpp:410-417 | Writes the four flags of the gate and nothing else; what they must be is GateReasons.FlagsAreReasons |
| BaseStation.BaseStation.HandleAction | main/base_station.cpp:277-302 | An action on the object, with its three parts, is the specified step of the station |
| BaseStation.BaseStation.EnterSurvey | main/base_station.cpp:304-318 | Entering survey mode on the object is the specified step: gates shut, parser, batch and mailbox empty |
| BaseStation.BaseStation.EnterTransmit | main/base_station.cpp:320-332 | Entering transmit mode on the object is the specified step of the whole station |
| BaseStation.BaseStation.EnterRawCollection | main/base_station.cpp:334-351 | Starting raw collection is the specified step, and nothing at all outside transmit mode |
| BaseStation.BaseStation.ExitRawCollection | main/base_station.cpp:353-372 | Ending raw collection is the specified step: the logger stops and the gates wait for a frame again |
| BaseStation.BaseStation.ResetUm980 | main/base_station.cpp:374-398 | A receiver reset is the specified step, and nothing at all outside transmit mode or during raw collection |
| BaseStation.BaseStation.Boot | main/base_station.cpp:217-224 | The start of the run loop brings the object into transmit or survey mode as specified |
| BaseStation.BaseStation.FinishSurvey | main/base_station.cpp:238-249 | A survey's result that was stored ends the survey mode as specified, one that was not leaves everything as it is |
| BaseStation.BaseStation.SetStreamsSuspended | main/base_station.cpp:160-163 | The transient switch on the object is the specified step of the station |
| BaseStation.BaseStation.SetStreamsEnabled | main/base_station.cpp:165-170 | The user's switch on the object is the specified step of the station |
| BaseStation.BaseStation.SetNetworkAvailable | main/base_station.cpp:177-183 | The network's coming and going is the specified step, and nothing at all when it is no news |
| BaseStation.BaseStation.CloseRateWindow | main/base_station.cpp:257-271 | The end of a rate window opens the upstream gate when the rate suffices, and never shuts it |
| BaseStation.BaseStation.FeedRtcmByte | main/base_station.cpp:453-497 | One received byte takes the deframer, the batch, the mailbox and the gates through one step of the station |
| BaseStation.BaseStation.PublishRtcmFrame | main/base_station.cpp:633-649 | A frame opens the gates and goes into the batch and the mailbox |
| BaseStation.BaseStation.FlushDue | main/base_station.cpp:557-565 | The polls at the end of a read, local batch first, then the three destinations |
| SendLoop.SentAllIff | main/ntrip_push.cpp:411-461 | A send succeeds exactly when some beginning of the socket's answers, with no fatal one and never a full run of stalls in it, carries all the bytes |
| SendAnswers.UpstreamSendsIff | main/ntrip_push.cpp:411-461 | Upstream a packet goes out whole if and only if answers without a failure write all of it before the socket has taken nothing in eight waits on end |
| SendAnswers.LocalSendsIff | main/local_caster.cpp:264-291 | Locally if and only if they do before ten such waits, a failing select among them |
| SendLoop.SendAllUpstream | main/ntrip_push.cpp:411-461 | For any partial writes, exactly the first bytes of the data, as many as specified, go out in order, and success is reported exactly when that is all of them |
| SendLoop.SendAllLocal | main/local_caster.cpp:264-291 | The local caster's loop, whose failing select counts as a stall, puts out exactly the first bytes of the data, as many as specified, and reports success exactly when that is all of them |
| NtripPush.TurnKeepsInv | main/ntrip_push.cpp:188-282 | Every turn of the worker keeps: an open connection carries the request and every packet dequeued since; finished ones ended cleanly; failures and pauses are in step |
| NtripPush.CallsKeepInv | main/ntrip_push.cpp:117-156 | Configuring, suspending and pushing keep the invariant of connections, queue and failure streak |
| NtripPush.RunKeepsInv | main/ntrip_push.cpp:117-282 | Every run keeps that invariant, with an adversary choosing what connect, send and the clock do |
| NtripPush.ConnectionsEndCleanly | main/ntrip_push.cpp:251-278 | In any run, a finished connection carried the request, then whole packets in dequeue order, then at most one strict packet prefix |
| NtripPush.SocketsCarryConnections | main/ntrip_push.cpp:284-344 | In every run no call writes to or closes a socket that is not open and none is opened over another; the calls put exactly the bytes of the recorded connections on the sockets, one after another, and on the open one its request and every packet since |
| NtripPush.ClosedStaysClosed | main/ntrip_push.cpp:497-505 | However a run goes on, the bytes of a connection that has been closed stay what they are |
| NtripPush.LeastSpanFormula | main/ntrip_push.cpp:38-46 | The least pauses of a failure streak add up to 390 + 600 (n - 8) seconds for n >= 8 attempts |
| NtripPush.RetriesAreRare | main/ntrip_push.cpp:188-282 | At any moment of any run the n >= 8 attempts of the current failure streak span at least that long, whatever the jitter |
| NtripPush.RetryDelayMs | main/ntrip_push.cpp:38-46 | A pause is at least 10, 20, 40 or 80 s by the count of failures and less than 5 s longer; from the eighth failure on at least 600 s and less than 120 s longer |
| NtripPushClient.NtripPushClient.Push | main/ntrip_push.cpp:140-156 | Accepts exactly nonempty data of a connected, unsuspended client, cut to its size; a full queue loses its oldest packet, as PushQueue.QueueHoldsNewest says of whole runs |
| PushQueue.QueueHoldsNewest | main/ntrip_push.cpp:140-156 | In every run the queue holds the newest of the accepted packets, at most eight; the worker takes from its front, in order and each once; one is lost, the oldest, and counted exactly when push finds eight; all others are taken or thrown away with the whole queue |
| PushQueue.ReadyClientSends | main/ntrip_push.cpp:251-278 | The turn of a running, connected client takes the oldest packet and sends all of it, or a beginning after which the connection is closed and the failure counted; after five healthy seconds no failure counts |
| PushQueue.IdleClientConnects | main/ntrip_push.cpp:225-250 | The turn of a running client without a connection attempts one, and has one exactly if the socket opens, the whole request goes out and the caster accepts |
| PushQueue.ClosesFirst | main/ntrip_push.cpp:198-243 | A suspended client, one switched off and one with a new configuration close what they have; the last starts afresh, with no old packet and no failure counted |
| PushQueue.OtherwiseStill | main/ntrip_push.cpp:188-224 | A client that is suspended, off or waiting its share after a resume takes nothing and attempts nothing for 250 ms |
| NtripPushClient.NtripPushClient.SetSuspended | main/ntrip_push.cpp:130-138 | Suspending asks for a reconnect and forgets a resume time; only a resume out of a suspension notes the time, and queue and connection are left to the worker |
| NtripPushClient.NtripPushClient.ConnectCaster | main/ntrip_push.cpp:284-344 | A failed attempt is counted once and paused for; a successful one starts a connection with the request; the bytes on the socket are those the send loop put there |
| NtripPushClient.NtripPushClient.ServeQueue | main/ntrip_push.cpp:251-278 | A packet is sent whole, or the socket is closed after a strict prefix and the failure counted; the bytes on the socket are those the send loop put there |
| NtripPushClient.NtripPushClient.RunOnce | main/ntrip_push.cpp:188-282 | A turn of the worker on the object is the specified turn |
| SendQueue.NextKeepsInv | main/ntrip_push.cpp:140-156 | Every single queue operation keeps the queue a gapless newest part of what entered it |
| SendQueue.AnyInterleaving | main/ntrip_push.cpp:140-156 | Under every interleaving of push with the worker the queue is a contiguous suffix of at most 8 accepted packets and the second send in push never fails; except between the receive in push and its increment, dropped_batches_ is never less than the packets push discarded, and equal to them exactly when push never found the full queue emptied |
| LocalCaster.TurnKeepsInv | main/local_caster.cpp:121-144 | Every turn keeps each open client up to date and each departed one cleanly cut |
| LocalCaster.CallsKeepInv | main/local_caster.cpp:80-98 | Suspending and pushing keep every open client up to date and every departed one cleanly cut |
| LocalCaster.SuspendedTurnClears | main/local_caster.cpp:124-129 | A suspended caster has, after its next turn, no client, no packet and no listener |
| LocalCaster.ClientsAreUpToDate | main/local_caster.cpp:224-234 | At any moment of any run an open client has received the greeting and exactly every packet broadcast since it joined; one that left had all but a strict rest of its last packet |
| CasterQueue.QueueKeepsOrder | main/local_caster.cpp:85-98 | In every run a packet enters exactly if the caster runs and fewer than sixteen wait; those broadcast are taken from the front, in order and each once; the others wait or were thrown away with the whole queue |
| CasterQueue.TurnServes | main/local_caster.cpp:121-144 | The turn of a running caster takes the oldest packet, and each client, on its own, has it whole afterwards or is gone |
| CasterQueue.CallerJoins | main/local_caster.cpp:168-222 | Who asks for the stream and takes the whole greeting gets the first free slot; otherwise nobody joins |
| CasterQueue.GreetingIs | main/local_caster.cpp:208-208 | The greeting is ICY 200 OK and two line ends |
| CasterQueue.OtherTurns | main/local_caster.cpp:121-144 | Any other turn broadcasts nothing, and a suspension or a pending reset empties the queue |
| LocalCasterTask.LocalCasterTask.Push | main/local_caster.cpp:85-98 | When the queue is full the new packet is lost; CasterQueue.QueueKeepsOrder says what that means for whole runs |
| LocalCasterTask.LocalCasterTask.FindSlot | main/local_caster.cpp:197-203 | Finds the first free slot, or that there is none |
| LocalCasterTask.LocalCasterTask.AcceptClient | main/local_caster.cpp:168-222 | A caller gets the free slot after the greeting went out whole, else nothing changes |
| LocalCasterTask.LocalCasterTask.OfferTo | main/local_caster.cpp:224-234 | A client gets the packet whole or loses its slot after a strict prefix |
| LocalCasterTask.LocalCasterTask.Broadcast | main/local_caster.cpp:224-234 | The loop over the slot arrays offers the packet to every client as specified; the counter stays the number of open clients |
| LocalCasterTask.LocalCasterTask.CloseClients | main/local_caster.cpp:236-246 | Every slot and address is free afterwards |
| LocalCasterTask.LocalCasterTask.Recount | main/local_caster.cpp:256-262 | The counter is the number of open slots |
| LocalCasterTask.LocalCasterTask.RunOnce | main/local_caster.cpp:121-144 | A turn on the slot arrays is the specified turn |
| SdDelete.OneMoreChild | main/sd_manager.cpp:388-394 | A child's delete leaves its siblings alone and adds up in the counters |
| SdDelete.FileRemoved | main/sd_manager.cpp:404-411 | A file is unlinked and counted, or is one failure |
| SdDelete.DirectoryRemoved | main/sd_manager.cpp:396-403 | An empty directory goes and is counted, nothing else changes |
| SdDelete.BatchStep | main/sd_manager.cpp:456-461 | One more path of a batch keeps: only named subtrees change, managed shells survive, every call has one outcome, and without faults exactly the named subtrees go |
| SdPath.GuardIsOnNames | main/sd_manager.cpp:158-297 | The string comparisons that guard a delete decide as the guards on names do, for every path spelled with single slashes, one at the end included |
| SdManager.SdManager.RemoveTree | main/sd_manager.cpp:367-412 | With failures of any system call: each call adds one to deleted, failed or skipped; deleted is the number of entries really gone and equals progress; nothing outside the subtree changes, nor anything in a directory whose path is refused; a managed shell survives; the error kept is the first failure and lies in the subtree; the path buffer comes back as it was |
| SdManager.SdManager.RemoveChildren | main/sd_manager.cpp:388-394 | The loop over the entries of a directory deals with each name once |
| SdManager.SdManager.DeletePaths | main/sd_manager.cpp:434-463 | One bad or mount-root path and nothing at all is touched; otherwise the whole batch is done as above, and an error is kept exactly if something failed |
| SdManager.SdManager.DeleteRecursive | main/sd_manager.cpp:414-432 | A single path is refused untouched, or deleted with the same accounting as one path of a batch |
| SdManager.SdManager.PreviewWalk | main/sd_manager.cpp:306-332 | The walk counts the files and directories of the subtree and adds up the files' sizes; cut off, it has counted 4096 at least; the card stays as it is |
| SdManager.SdManager.PreviewDeleteMany | main/sd_manager.cpp:349-365 | The preview of a batch counts what the batch names, shells left out |
| SdPreview.PreviewAgrees | main/sd_manager.cpp:306-365 | For pairwise non-nested paths, no fault and an untruncated preview, the delete removes exactly as many entries as the preview counted, of as many bytes, and fails only for missing paths |
| SdManager.SdManager.PreviewThenDelete | main/sd_manager.cpp:306-463 | The two run one after the other on the same card, and what is left is the card without the named subtrees and with the managed shells |
| CasterSuspend.NextKeepsInv | src/ntrip_caster.h:50-124 | Every step of worker, pusher and controller keeps the flags, clients and queue in step |
| CasterSuspend.ClosedWhenAssured | src/ntrip_caster.h:66-82 | Once suspendAndWait has returned true every client is closed, even when the acknowledgement is that of an earlier suspension |
| CasterSuspend.NoActivityUntilResume | src/ntrip_caster.h:98-124 | After a true answer of suspendAndWait the worker accepts nobody and writes nothing until resume |
| CasterSuspend.QueueTrustedIff | src/ntrip_caster.h:50-82 | A true answer means an empty queue, whatever happens during the call, if and only if the call does not begin while the worker is past emptying the queue for an earlier suspension and a packet has entered it since |
| CasterSuspend.UntrustedQueueHappens | src/ntrip_caster.h:50-82 | From the start of the program a schedule reaches a moment at which a call cannot be trusted to leave an empty queue |
| CasterSuspend.OrderlyResume | src/ntrip_caster.h:66-82 | A caller that resumes only while the worker waits for it never finds a packet in the queue behind the point where the worker emptied it |
| CasterSuspend.OrderlyCallIsTrusted | src/ntrip_caster.h:66-82 | Every call of such a caller can be trusted to leave an empty queue |
| CasterSuspend.QueueNeedNotBeEmpty | src/ntrip_caster.h:50-82 | A schedule in which suspendAndWait answers true over a queue that is not empty |
| ClientSuspend.NextKeepsInv | src/ntrip_client.h:182-219 | Every step of worker, controller, pusher and peer, the end of a packet's writing included, keeps the program counters, flags, queue and socket in step |
| ClientSuspend.TrustworthyIff | src/ntrip_client.h:90-108 | A true answer of suspendAndWait means a closed socket and an empty queue, whatever happens during the call, if and only if the call does not begin, with no request in force, while the worker is on its way to an acknowledgement, nor, under a request in force, while a packet lies behind the worker's reset of the queue |
| ClientSuspend.SocketTrustedIff | src/ntrip_client.h:90-108 | It means a closed socket if and only if the call does not begin, with no request in force, while the worker is on its way to an acknowledgement; under a request in force it always does |
| ClientSuspend.OvertakingHappens | src/ntrip_client.h:90-108 | From the start of the program a schedule reaches a moment at which the call can answer true over an open socket |
| ClientSuspend.NotTrustworthyIfOvertaken | src/ntrip_client.h:90-108 | From any such moment with no request in force a schedule answers true over an open socket |
| ClientSuspend.NotTrustworthyIfCrowded | src/ntrip_client.h:90-108 | From any such moment under a request a schedule answers true over a queue that is not empty |
| ClientSuspend.CrowdingHappens | src/ntrip_client.h:65-108 | From the start of the program a schedule reaches a moment of the second kind |
| ClientSuspend.TrustworthyIfNotOvertaken | src/ntrip_client.h:90-108 | From no other moment can suspendAndWait answer true over an open socket, nor over a queue that is not empty |
| ClientSuspend.NoActivityUntilResume | src/ntrip_client.h:182-219 | After a true answer whose socket can be trusted the worker neither connects nor writes until resume, and an empty queue stays empty |
| LogBuffer.LogBuffer.Append | main/log_buffer.cpp:24-32 | The ring holds the last min(total, 16384) bytes of everything appended |
| LogBuffer.LogBuffer.SnapshotSince | main/log_buffer.cpp:57-82 | The snapshot shows the history from the cursor on, or from the oldest byte held, and says which |
| LogBuffer.PollingLosesNothing | main/log_buffer.cpp:57-82 | Snapshots polled with a nonzero next cursor concatenate to the exact byte history unless one of them is marked truncated |
| LogBuffer.TruncatedIff | main/log_buffer.cpp:63-67 | A snapshot is marked truncated exactly when unseen bytes have been overwritten |
| LogBuffer.ReaderSees | main/log_buffer.cpp:57-82 | Every reader is shown the newest bytes, those behind its cursor but 16384 at the most, and is told of a loss exactly when there is one and its cursor is not zero |
| LogBuffer.ZeroCursorIsSilent | main/log_buffer.cpp:63-67 | A cursor of zero loses bytes without saying so |
| Base64.DecodeEncode | src/ntrip_client.h:403-419 | The decoder gives back every byte string from the encoder's text, whose length is 4 ceil(n / 3) |
| Base64Text.LetterIs | src/ntrip_client.h:404-405 | The encoder's digits are the alphabet of RFC 4648, table 1, and the decoder's values its places |
| Base64Text.LettersAre | src/ntrip_caster.h:221-228 | The decoder refuses every other character |
| Base64Text.EncodedBits | src/ntrip_client.h:403-419 | The text spells all the bits of the data in order, six to a letter, with only zeros behind them, and padding up to a multiple of four |
| Base64Text.DecodedBits | src/ntrip_caster.h:230-246 | Of any letters up to padding or the end the decoder delivers exactly the whole bytes their bits make |
| Base64Text.RefusedText | src/ntrip_caster.h:230-246 | Any other character in front of the padding and nothing is delivered |
| Base64.EncodeString | src/ntrip_client.h:403-419 | The loop produces the text of the definition |
| Base64.DecodeString | src/ntrip_caster.h:230-246 | The loop, whose 32-bit accumulator wraps, produces what the decoder with an unbounded one does, and the empty string at a foreign character |
| Base64.ShiftIn | src/ntrip_caster.h:238-238 | The wrapped accumulator keeps the low bits that are still needed |
| Base64.DecodeDigit | src/ntrip_caster.h:230-246 | One digit read from each of the four states of the decoder |
| Json.EscapeString | main/web_server.cpp:2334-2350 | The loop writes the escape of every character in order |
| Json.ReadEscaped | main/web_server.cpp:2414-2455 | A printed string is read back without the control characters that the printer drops, and refused when more than 256 are left |
| Json.ReadPrinted | main/web_server.cpp:2403-2459 | A printed list, with any whitespace and commas between its elements, is read back element by element, or refused when it or an element is too long |
| JsonText.ReadsEverySpelling | main/web_server.cpp:2414-2455 | Every way RFC 8259, section 7, has to write a string is read as the characters meant, exactly if none is meant by a number above 0x7F and there are at most 256 |
| JsonText.OnlySpellings | main/web_server.cpp:2414-2455 | Nothing else is read, as long as four hexadecimal digits follow each backslash and u |
| JsonText.LooseNumberIsRead | main/web_server.cpp:2427-2440 | Without that proviso something is: strtol takes 0x and blanks and signs for digits |
| JsonText.PrinterSpells | main/web_server.cpp:2334-2350 | What the printer prints are legal spellings of the characters it does not drop |
| Json.FindBody | main/web_server.cpp:2396-2401 | The key and the bracket found are the ones meant, for every key, whatever members stand in front of it and whatever the array holds, as long as the quoted key is not spelled earlier |
| Json.LeadsIff | main/web_server.cpp:2396-2398 | The search finds the key that is meant if and only if the quoted key begins nowhere in front of it, whatever follows |
| Json.PlainLeads | main/web_server.cpp:2396-2398 | So whenever the array is the first member of its body |
| Json.ReadBack | main/web_server.cpp:2387-2461 | What the reader makes of any printed body: the list without dropped characters, or a refusal when an element or the list is too long |
| Json.ReadBackUnterminated | main/web_server.cpp:2403-2460 | A body cut off right after an element is accepted all the same |
| Json.MalformedRefused | main/web_server.cpp:2403-2412 | Anything but a string or the closing bracket in the place of an element is refused, and so is an end behind a separator |
| Json.NoArray | main/web_server.cpp:2396-2401 | A body without the quoted key holds an empty list, one with the key and no bracket is refused |
| Json.ReaderUndoesPrinter | main/web_server.cpp:2387-2461 | Behind any members that do not spell the quoted key, the reader undoes the printer if and only if there are at most 256 strings of at most 256 characters with no control character but backspace, tab, line feed, form feed and return |
| Json.ReadString | main/web_server.cpp:2413-2456 | The inner loop reads one element as the definition does |
| Json.ReadStringArray | main/web_server.cpp:2387-2461 | The loops answer what the definition does: the list, nothing for an absent key, or a rejection with an empty list |
| Statistics.UpdateIsExact | main/survey.cpp:349-354 | update_welford keeps mean and m2 the exact mean of the values and the exact sum of squared deviations from it |
| Statistics.Recentre | main/survey.cpp:349-354 | How a sum of squared deviations changes with its centre |
| Survey.RunsFlatten | main/survey.cpp:205-215 | Cutting the samples into blocks loses none |
| Survey.RunsAreMaximal | main/survey.cpp:205-215 | Every block is of one minute index and the next one of another |
| Survey.IntoBlockKeepsInv | main/survey.cpp:205-215 | The open block is the last run, and the block statistics are exact over the means of all runs before it, in order |
| Survey.VarianceIsScatter | main/survey.cpp:217-227 | The figures the gate is decided on are the sampling variance of the mean of the block means |
| Survey.FixIsJustified | main/survey.cpp:253-265 | A position ends the survey exactly when 300 s have passed and five block means scatter by at most 0.5 m, and the report is the mean position and that scatter |
| Survey.BlocksTakeTheirTime | main/survey.cpp:203-265 | With time that does not run backwards n closed blocks take 60 n seconds, so the five-block gate implies the 300 s gate |
| Survey.ElapsedGrows | main/survey.cpp:203-204 | The elapsed seconds do not run backwards when the clock does not |
| Survey.TimeGateNeverDecides | main/survey.cpp:189-266 | In every run from power-on whose clock does not run backwards, n closed blocks have taken 60 n seconds when a position comes, and the survey ends exactly when the blocks have settled |
| Survey.StepKeepsInv | main/survey.cpp:68-143 | Every start, reset, position and take keeps all of this |
| Survey.BootKeepsInv | main/survey.cpp:68-266 | In every run from power-on the result of a start is delivered at most once, and only a justified one |
| Survey.PositionTaken | main/survey.cpp:164-215 | In every run from power-on a survey that collects takes in exactly the positions on Earth, each with the whole seconds since its own start |
| Survey.AfterReset | main/survey.cpp:90-112 | After a reset nothing is taken in and nothing delivered until the next start |
| Survey.ResultIsDelivered | main/survey.cpp:137-266 | A start collects from nothing, and the position that settles a survey has its result delivered to the next caller, once |
| Survey.SurveyManager.Start | main/survey.cpp:68-88 | Start leaves no trace of an earlier survey in any field |
| Survey.SurveyManager.CommitBlock | main/survey.cpp:335-347 | The fields after closing a block are those specified |
| Survey.SurveyManager.TakePosition | main/survey.cpp:189-266 | The fields after a position are those specified, rejected positions included |
| Survey.SurveyManager.TakeCompletedResult | main/survey.cpp:137-143 | A finished report is delivered once; the second call gets nothing |
| Csv.JoinedFields | main/survey.cpp:29-43 | Fields are what lies between the commas: joined they are the text |
| Csv.FieldsJoined | main/survey.cpp:29-43 | Any comma-free fields, joined by commas, are found again |
| Csv.CsvField | main/survey.cpp:29-43 | The scan finds field k exactly when there is one, and its exact text |
| Satellites.WholeCycle | main/survey.cpp:285-333 | A whole cycle of GSV sentences replaces the satellites of its system by the first twenty it names, as far as 64 allow, and keeps all others in order, whatever was heard before |
| Satellites.OthersOf | main/survey.cpp:323-328 | The others are exactly those of other systems, and dropping systems commutes |
| Satellites.OthersConcat | main/survey.cpp:323-328 | Dropping a system goes entry by entry, in order |
| Satellites.NamedOf | main/survey.cpp:302-320 | Records become entries one by one, numbers in range as they are, and those without a satellite number not at all |
| Satellites.CycleLeaves | main/survey.cpp:285-333 | After a whole cycle the list is what there was of other systems and the first twenty named, or as many as 64 entries have room for |
| Satellites.RunInRange | main/survey.cpp:285-333 | Whatever the sentences say, every entry fits its fields and there are never more than 64 |
| Satellites.BufferIsOfOne | main/survey.cpp:298-301 | Cycles broken off or mixed never mix systems in the buffer |
| Satellites.NextKeepsInv | main/survey.cpp:285-333 | At most 64 satellites are listed and 20 buffered |
| Satellites.SatelliteList.Collect | main/survey.cpp:302-320 | The buffer gets the named satellites until it is full |
| Satellites.SatelliteList.DropSystem | main/survey.cpp:323-328 | The compaction in place leaves the others in order |
| Satellites.SatelliteList.ParseGsv | main/survey.cpp:285-333 | The arrays change as specified |
| RinexSat.SatIdReadsBack | main/rinex_satid.h:73-83 | An identifier is written exactly for a known constellation and a number in its range, and reads back as both |
| RinexSat.SameSatId | main/rinex_satid.h:73-83 | Two records share an identifier exactly when constellation and normalised number agree |
| RinexSat.FindSystemLoop | main/rinex_satid.h:59-66 | The table search answers as specified |
| RinexSat.BandsAreDeclared | main/rinex_logger.cpp:151-183 | Every signal kept has a declared column, and no two signals rank the same within a band |
| RinexSat.BestIsBest | main/rinex_logger.cpp:315-320 | A cell holds the first of the highest ranking observations of its satellite and band, its phase with the opposite sign, and is empty exactly when there is none |
| RinexSat.KeysAre | main/rinex_logger.cpp:289-303 | A satellite is listed exactly when it has a usable record |
| RinexSat.KeysDiffer | main/rinex_logger.cpp:289-303 | No satellite is listed twice |
| RinexSat.ListedIsLegal | main/rinex_logger.cpp:272-287 | A listed satellite has a legal identifier and an observation in a declared band |
| RinexSat.MergeRecords | main/rinex_logger.cpp:240-321 | The merge loop produces exactly those satellites and cells; which signal belongs in which cell is RinexSignals.SignalsInTheirColumns |
| RinexSignals.ColumnsAre | main/rinex_satid.h:47-53 | The header declares for each band the four codes of one carrier tracked one way |
| RinexSignals.SignalsInTheirColumns | main/rinex_logger.cpp:149-183 | A signal is kept in a band if and only if the band's column is for its carrier |
| RinexSignals.LabelledSignalWins | main/rinex_logger.cpp:315-320 | Of the signals of a band the one tracked as its column says outranks all others |
| RinexSignals.RowHoldsItsCarriers | main/rinex_logger.cpp:240-560 | The columns of a row read as the four values of the first of the highest ranking records of that satellite and carrier, and are blank exactly if there is none |
| RinexSignals.SatelliteIsMeant | main/rinex_satid.h:70-83 | An identifier is written exactly for the satellites there are, and spells the one the receiver means by its raw number |
| RinexFeed.FeedConcat | main/rinex_logger.cpp:100-136 | How the stream is cut into reads does not matter |
| RinexFeed.FeedSent | main/rinex_logger.cpp:100-136 | Of whole messages with anything but # between them exactly the RANGEA ones are handed on, whole and in order |
| RinexFeed.EndsIff | main/rinex_logger.cpp:117-126 | A text ends as a message when its line feed has a star at most eleven characters before it |
| RinexFeed.LineIsWhole | main/rinex_logger.cpp:100-136 | A line with a star, eight digits of a checksum and a line end is one whole message when it has room, and a RANGEA message exactly by its first word |
| RinexFeed.FeedIsFaithful | main/rinex_logger.cpp:100-136 | On any stream, what is handed on are whole RANGEA messages, disjoint slices of the stream in order, and the buffer is its newest part |
| RinexStream.CapturesAre | main/rinex_logger.cpp:100-136 | A capture that fits the buffer is a whole message and every whole message is one |
| RinexStream.FeedCapture | main/rinex_logger.cpp:100-136 | A capture, whole or overflowing, leaves the reader idle and is handed on exactly when it is a RANGEA message |
| RinexStream.FeedIsGreedy | main/rinex_logger.cpp:100-136 | Refinement: on any stream, the messages handed on are exactly the RANGEA ones of the greedy whole-stream description, in order, and the buffer is its unfinished capture |
| RinexStream.ScanIsGreedy | main/rinex_logger.cpp:100-136 | Every stream has a greedy description |
| RinexStream.GreedyUnique | main/rinex_logger.cpp:100-136 | No stream has two greedy descriptions |
| RinexFeed.RangeReader.FindStar | main/rinex_logger.cpp:120-125 | The backward scan finds a star among the last twelve characters exactly when there is one |
| RinexFeed.RangeReader.FeedAll | main/rinex_logger.cpp:100-136 | The loop over the character buffer is the specified reader |
| RinexLog.BoundaryIff | main/rinex_logger.cpp:222-224 | A message is an epoch exactly when it is within half a second of a multiple of thirty, and is rounded to that one |
| RinexLog.EpochIff | main/rinex_logger.cpp:220-339 | A message makes an epoch exactly if its time is good and on a boundary, it announces 1 to 120 observations, and one of those that are there can be kept |
| GpsTime.YearsClosed | main/rinex_logger.cpp:39-52 | The days of any span of years, found year by year, are those of the closed Gregorian formula |
| GpsTime.CalendarReadsBack | main/rinex_logger.cpp:39-52 | The calendar date counted in seconds of the Unix epoch is the GPS time it was made from if and only if its year, less 1900, fits the 32 bits of tm_year |
| RinexFile.CellValues | main/rinex_logger.cpp:55-61 | A band holds pseudorange, phase, Doppler shift and signal strength in this order, each in fourteen columns with two blank ones behind |
| RinexColumns.FixedReads | main/rinex_logger.cpp:55-61 | A number printed with decimals reads back, whatever its sign |
| RinexColumns.EpochLineReads | main/rinex_logger.cpp:511-512 | Year, month, day, hour, minute, second and count of an epoch's line are read from their columns, when year and count fit theirs |
| RinexColumns.TimeReads | main/rinex_logger.cpp:475-480 | So are the times of the header, when the year fits its six columns |
| RinexColumns.PositionReads | main/rinex_logger.cpp:447-448 | And the station's position |
| RinexColumns.HeightReads | main/rinex_logger.cpp:450-451 | And the height of its antenna |
| RinexColumns.AntennaReads | main/rinex_logger.cpp:443-446 | Model and radome stand in columns 21 to 40 and the line's name in column 61 |
| RinexColumns.CellReads | main/rinex_logger.cpp:55-61 | The four values of a cell read back in thousandths |
| RinexFile.TimeWidth | main/rinex_logger.cpp:475-480 | The time in the patched line is 43 to 48 columns wide, and 43 exactly when the year fits its six columns |
| RinexFile.OverwriteMiddle | main/rinex_logger.cpp:541-549 | A write in the middle of a file replaces a part by another exactly when both are equally long |
| RinexFile.PatchIffSameWidth | main/rinex_logger.cpp:385-399 | Patching the header of a rendered file gives the file rendered with the new time if and only if the two lines are equally wide |
| RinexPatch.WrittenHolds | main/rinex_logger.cpp:487-561 | After every epoch, of whatever year, the file is the header with its times patched in place and the epochs, and the append position is its end |
| RinexPatch.WrittenIff | main/rinex_logger.cpp:541-549 | From a file that is the rendering, a further epoch leaves the rendering if and only if its time is as wide as the one before |
| RinexPatch.ClosedHolds | main/rinex_logger.cpp:382-402 | Closing patches the newest time in again and changes nothing |
| RinexPatch.OpenedHolds | main/rinex_logger.cpp:351-380 | A new file with its first epoch is the header and that one epoch, whatever its year |
| RinexPatch.RenderedIff | main/rinex_logger.cpp:382-402 | What all the patches in place leave is, byte for byte, the file rendered at once with its newest time if and only if the newest time is as wide as the first and none is wider |
| RinexPatch.NarrowIsSteady | main/rinex_logger.cpp:475-480 | That is so whenever every year fits its six columns |
| RinexFile.RowColumns | main/rinex_logger.cpp:514-530 | A row has four columns of sixteen for each band its constellation declares, each where the header puts it |
| RinexLog.NextKeepsJournal | main/rinex_logger.cpp:327-349 | Every file's epochs lie less than an hour after its first, have 1 to 120 legal rows of declared systems, and the declared systems are those of its first epoch |
| RinexLog.EpochBeginsFile | main/rinex_logger.cpp:327-339 | An epoch for which no file is open begins one with all of it, if it can be opened |
| RinexLog.EpochEndsFile | main/rinex_logger.cpp:344-349 | An epoch 3600 s or more after a file's first ends that file and begins the next with all of it; an earlier one lengthens the file by its declared rows |
| RinexLog.OthersLeaveFiles | main/rinex_logger.cpp:88-99 | Nothing else adds an epoch or ends a file, except stopping |
| RinexLog.RunRefines | main/rinex_logger.cpp:327-339 | Every run on bytes, of whatever years, refines the run on documents: every file, closed or open, is what patching in place leaves of its document, and an open one is appended to at its end |
| RinexLog.EveryFileIsRendered | main/rinex_logger.cpp:327-561 | In every run from power-on every file, closed or open, is byte for byte the plain rendering of its epochs if and only if its newest time is as wide as its first and none is wider |
| RinexWide.UnrenderedFileHappens | main/rinex_logger.cpp:187-403 | For every station, a run of two messages, dated 1 January of the years 1000000 and 2000, leaves one file that is not the rendering of its epochs |
| RinexLog.FileIsAnHour | main/rinex_logger.cpp:344-349 | Epochs in strictly increasing order: a file spans less than 3600 s and holds at most 120, across a week rollover too |
| RinexLog.FilesAreHours | main/rinex_logger.cpp:327-349 | In every run whose epochs come in strictly increasing order every file spans less than 3600 s and holds at most 120 epochs |
| RinexHeader.SysLineDeclares | main/rinex_logger.cpp:455-465 | A constellation's header line declares that constellation and nothing else |
| RinexAntenna.AntennaEndsIff | main/rinex_logger.cpp:443-446 | The antenna's line spells the end of the header exactly when its twenty columns do |
| RinexAntenna.NoRoomForInterval | main/rinex_logger.cpp:443-446 | An antenna's line that spells the end of the header has no room for the INTERVAL record the validator requires |
| RinexAntenna.PiecesEnd | main/rinex_logger.cpp:443-446 | However line breaks in the antenna's columns cut its line, one of the lines read ends the header exactly when the columns spell the words, and then none of them is an INTERVAL record |
| RinexAntenna.PieceDeclaresNone | main/rinex_logger.cpp:443-446 | None of the lines read declares a constellation unless the columns are a line break and the label that does |
| RinexAntenna.SpoofDeclares | main/rinex_logger.cpp:443-446 | If they are, the second line read declares the constellation S |
| RinexValidator.CountReads | tools/validate_rinex.py:61-68 | The satellite count at the end of an epoch line reads back, even where it runs into the flag |
| RinexValidator.RowsRead | tools/validate_rinex.py:70-92 | The rows of an epoch are counted and found legal |
| RinexValidator.CodesAreDeclared | tools/validate_rinex.py:98-102 | The constellations with rows are exactly those of the header |
| RinexAccepted.AcceptedIff | tools/validate_rinex.py:26-104 | The repository's validator accepts a file of the logger, as patched and as rendered, if and only if the antenna's twenty columns neither spell END OF HEADER nor are a line break followed by SYS / # / OBS TYPES, whatever else they are and whatever the years |
| RinexAccepted.EveryFileIsAccepted | tools/validate_rinex.py:26-104 | In every run from power-on the validator accepts a file, closed or still being written, if and only if its antenna text is neither of these |
| RinexAccepted.SpoofedStation | main/web_server.cpp:1728-1744 | A name and radome of the sizes the form accepts that are the line break and the label and nowhere spell the end of a header |
| RinexAccepted.EndingStation | main/web_server.cpp:1728-1744 | A name and radome of the sizes the form accepts that spell the end of a header |
| RinexAccepted.SpoofedFilesFail | tools/validate_rinex.py:26-104 | The validator accepts no file of a station with either |
| RinexWide.RefusedFileHappens | tools/validate_rinex.py:26-104 | From power-on a run of such a station leaves a file the validator refuses |
| RinexLogger.Stream.PrintLines | main/rinex_logger.cpp:417-485 | Lines printed one after the other are one write |
| RinexLogger.Rinex.CloseFile | main/rinex_logger.cpp:382-403 | The stream after the final patch is what the specified close leaves |
| RinexLogger.Rinex.RotateIfNeeded | main/rinex_logger.cpp:344-349 | The file is closed exactly when its hour is over |
| RinexLogger.Rinex.WriteHeader | main/rinex_logger.cpp:417-485 | The header on the stream, and the position of its patchable line |
| RinexLogger.Rinex.OpenNew | main/rinex_logger.cpp:351-380 | A new stream with its header, or none |
| RinexLogger.Rinex.WriteEpoch | main/rinex_logger.cpp:487-561 | Printing at the end, seeking back, patching and seeking forward again is the specified write |
| RinexLogger.Rinex.ProcessMessage | main/rinex_logger.cpp:187-340 | A message on the object, with its stream, is the specified step of the logger |

## Left out

- Batch.HeldFramesAreFresh: assumes a timer that does not run backwards and is not negative, as the boot timer is.
- Mailbox.AtMostOnce: states hand-off to a sender's queue, which is what push promises, not delivery to the caster.
- Mailbox.DueTickCatchesUp: a destination holds the newest frames when none is refused; the sender's queue may drop some of them later, since it has fewer places than the mailbox has slots.
- Station.StepKeepsInv: each call of the station's methods is one step; two tasks inside apply_stream_state at once are not modelled.
- StreamGate.QuietAfterTransition: says nothing about a sender that is already inside a send when its flag changes.
- NtripPush.SocketsCarryConnections: a connection that never opens has no socket; what happens to the bytes behind the socket is the network's.
- Distribution.NothingOldGoesOut: a turn of a sender's task is one step, so a send under way when a call shuts the gates belongs to the time before it; the station's own calls come one at a time.
- Distribution.OnlyFramesGoOut: answers of push are arbitrary, so nothing is said there about what a full queue loses.
- Station.PolledFramesAreFresh: for a clock that does not run backwards and is not negative.
- NtripPush.RetriesAreRare: pauses are counted as the delays the program asks for.
- NtripPushClient.NtripPushClient.RunOnce: the HTTP status line and header lines of the handshake are one answer, accepted or not.
- LocalCaster.ClientsAreUpToDate: the request of a client is one answer, a wanted stream or not.
- SendQueue.AnyInterleaving: one producer, as in the firmware; the counters are unbounded.
- SdPath.GuardIsOnNames: for single slashes between names, and at most one at the end; doubled slashes, single dots and other spellings of a name that the card takes for the same are not modelled.
- SdManager.SdManager.RemoveTree: the first error is kept as its path, not as a text.
- ClientSuspend.TrustworthyIff: flags are sequentially consistent, the connection attempt is one step with two outcomes, and the worker task exists; without one the acknowledgement is given at once.
- CasterSuspend.QueueTrustedIff: flags are sequentially consistent, and the worker task exists.
- LogBuffer.PollingLosesNothing: the 64-bit total does not wrap.
- Base64.DecodeEncode: of the encoder in src/ntrip_client.h; the one in main/ntrip_push.cpp is the mbedtls library's.
- Survey.FixIsJustified: square roots are avoided by comparing squares, numbers are reals, and the cosine of the latitude is a parameter.
- Survey.ElapsedGrows: for the first 2^32 seconds of a survey, after which the uint32_t wraps.
- RinexAccepted.AcceptedIff: the antenna's name and radome are C strings and hold no zero byte; Python's int() also reads signs and underscores, which no file of the logger contains.
- RinexAccepted.EveryFileIsAccepted: seeks and writes on the card succeed; only opening a file may fail. Two files with the same name are two files.
- RinexFile.RowColumns: for values that fit the fourteen columns they are printed in; negative zero and values that are not numbers are not modelled.
- RinexColumns.EpochLineReads: for years of at most four columns and fewer than a thousand rows; wider ones shift what is behind them.
- RinexSignals.SignalsInTheirColumns: the receiver's own numbering of signals is taken from the comments of the source and its table of codes.
- RinexLog.FilesAreHours: a file's epochs are at most those of an hour only when epochs do not run backwards; nothing in the firmware checks that.
- RinexSat.MergeRecords: starts from records that have been taken apart; strtok, atoi and atof are not modelled.
- RinexFeed.FeedSent: a message is whole when it has no earlier end of its own.
- GSA sentences, the live snapshot of a survey and the line buffer in front of the parsers.
- Sockets, name lookup, the cached address of a caster, TLS, FreeRTOS, the flash storage, the serial drivers and the receiver's command strings.
- The display, the web pages, the HTTP handlers, firmware updates and the recovery of Wi-Fi.
- The background worker for deletes, whose busy check is separate from its state store.
- The conversion of UTC to Unix time in the web server.
- GpsTime.CalendarReadsBack: the calendar is the proleptic Gregorian one; gmtime_r itself is the C library's.
- The older copies src/survey.h, src/main.cpp and src/web_status.h.
