# Verified model of the BLE host driver

The repository drives a Silicon Labs Bluetooth co-processor (the NCP) over a UART with the vendor protocol BGAPI.
This project models the parts of it that carry state and proves what they are for:

- **Receive driver** (`Bgapi`, `SerialLine`, `Receiver`, `DriverThread`): header encoding, reads that may come back
  short, empty or failed, the parser with its search for the start byte, the 30-slot event ring, the reset branch, the
  boot gate. `Receiver` is the thread as a function of the bytes on the line and of a schedule; `DriverThread` is the
  same thread as loops over global indices, flags and packets overwritten in place, proved equal to it.
  `DriverInvariants` proves what every run keeps, `Framing` that parsing undoes printing, `Throughput` that everything
  arrives, `EventHandover` what is handed on, `ReadLoops` how each read loop ends, `ResetRequests` when a requested
  reset is served, `ReadErrors` what failing reads do.
- **Commands** (`Commands`, `CommandMatch`, `CommandResults`, `CommandRuns`, `CommandThread`): the stubs that fill the
  shared command packet, and the clear / send / poll / read protocol that matches a response to its command while the
  driver thread writes the response packet piece by piece. `CommandMatch` is the protocol of the two threads,
  `CommandResults` what the stub reads, `CommandRuns` the runs that go wrong, `CommandThread` the loops of the code.
- **Reset handshake** (`ResetHandshake`, `ResetOutcome`, `ResetThread`): the API thread and the driver thread over two
  shared flags, every interleaving; what success and failure mean and when each comes; the loops of the code.
- **Advertisement reassembly** (`Reassembly`, `ReassemblyChains`): one step function generic in its key, the two static
  machines that compute it, and the simple list-of-fragments reassembler that both refine. The three data statuses are
  those of the Bluetooth Core Specification, Vol 4 Part E, sections 7.7.65.13 and 7.7.65.15.
- **Device list and connections** (`DeviceList`, `DeviceMap`, `ConnectionWatcher`): the circular linked list, the map it
  stands for, and the life cycle of connections.
- **Installing advertising data** (`HexCodec`, `LongData`): hexadecimal text, addresses, byte order, 255-byte chunks,
  and histories of calls.
- **GATT database** (`GattDelete`, `GattConfig`, `GattTree`, `GattSizes`, `GattExample`, `GattReplace`): enumeration,
  removal, staging and the transaction around them; the described tree, and exactly when it is what gets installed.
- **The NCP** (`CoProcessor`): what the two parts above rely on, with any command failing on a schedule.
- **iBeacon demo** (`IBeaconPacket`, `IBeaconRing`): the packet printer and decoder, and the overwriting ring.

A schedule is a finite list that fixes how each successive read, command or step of the other thread comes out; a
statement about all schedules is a statement about every finite prefix of every run. Words are those of a
little-endian host (`ENDIAN == 0`). Masks are written as arithmetic on bytes, and `Bgapi.MasksAreArithmetic` shows that
they are the same. A class method that changes state is proved equal to a function of the state before; what the
function is for is then proved in lemmas.

## Where the code does less than one might expect

Each of these is a lemma with the exact condition, or a concrete input:

- Reassembly appends a complete report to whatever chain is open, without looking at its key: behind another
  advertiser's chain it yields its own bytes exactly when the 16-bit length of that chain is 0, and vanishes exactly
  when the 16-bit length of both is above 1024 (`ReassemblyChains.CompleteIgnoresKey`). Incomplete fragments that reach
  1024 bytes exactly lose the last of them (`DeliveredIffBelowLimit`, `ExactLimitLosesData`). A report with a status
  above 2 is appended to whatever there is, with neither the key test nor the limit test (`UnknownStatus`,
  `UnknownStatusJoins`).
- Reassembly tests the length after the copy: a complete report, or one with a status above 2, is written past the
  1024-byte buffer exactly when it has data and the 16-bit length leaves no room for it (`ReassemblyChains.InsideIff`,
  `RunInsideIff`); it is delivered all the same exactly when the length wraps (`OverrunIsDelivered`), and such a chain
  can arrive (`OverrunArrives`).
- A text of 255 bytes is written behind whatever the NCP's buffer holds (`LongData.InstallsTheTextIff`), which is
  something after a long write that failed (`FailureLeavesBytes`) and nothing as long as no call fails
  (`HistoryInstallsTexts`); the 8-bit chunk counters lose data from 65280 bytes on, which the callers' limit of 1024
  excludes (`AllBytesSentIff`).
- A response header is published before its payload, and the payload arrives in pieces in the packet that the stub
  reads: the stub gets the latest payload exactly if the part not stored yet equals what the packet holds
  (`CommandResults.ReadsStoredPayload`), so it can get an earlier response or a mixture of two
  (`CommandRuns.PayloadMayBeStale`, `TornPayload`, `TornResult`). It gets the payload it was matched with exactly if
  the bytes it read before that was stored, or after another one was, happen to be the same
  (`CommandResults.ReadsOwnResponse`, `CommandRuns.OvertakenByAnother`). The result of the poll is not looked at, so a
  command that times out returns whatever was stored last, other commands' responses included
  (`CommandResults.ResultIsOverlay`, `UnansweredReadsOthers`, `CommandRuns.AnotherResponseIsReturned`).
- The payload read does not look at the reset flag, so a reset requested inside a payload of which the rest never
  comes is not served unless a read breaks (`ResetRequests.MissingPayloadBlocks`), while one in a search or a header is
  served next (`RequestWhileSearching`, `RequestAfterStartByte`, `RequestInHeader`) and one in a payload that does come
  right after it (`RequestInPayload`). A header read that fails once, with EAGAIN too, loses the bytes it had taken
  (`ReadErrors.HeaderGivenUp`); an event whose payload breaks off is returned all the same (`BrokenEventIsReturned`).
- `silabs_ble_connect` records its connection on the API thread, possibly after the watcher has seen it closed
  (`DeviceMap.LateApiAdd`, `LateApiAddIsStale`).
- A characteristic or descriptor whose UUID has neither 2 nor 16 bytes is passed over without an error: the database
  is the described tree exactly when there is none such (`GattSizes.StagedIsTheTreeIff`), and in a description with one
  the call succeeds and its descriptor ends up on the characteristic before it (`GattExample.OddUuidIsPassedOver`,
  `GattReplace.SetExampleGattDb`).
- The deletion empties the database exactly when at most one of the first searches, one more than there are services,
  wrongly reports nothing (`GattDelete.DeleteAll`, `FindsAllIff`).
- The iBeacon reader reports "nothing new" whenever the backlog is a multiple of 1024, and once 1024 packets are unread
  it never catches up again (`IBeaconRing.OldestUnreadIff`, `NeverCatchesUp`).

## Model

| member | source | states |
|---|---|---|
| Bgapi.MasksAreArithmetic | src/bledriver/silabs/sl_bgapi.h:160-174 | the masks 0xf8, 0x78 and 0x07 on a byte are the arithmetic used throughout, for every byte |
| Bgapi.MaskedWordIsId | src/bledriver/silabs/sl_bgapi.h:161-167 | every 32-bit word under the mask 0xffff00f8 is the word of a valid id |
| Bgapi.HeaderRoundTrip | src/bledriver/silabs/sl_bt_ncp_host_api.c:345-345 | the header word a stub builds reads back as the same id and length for every id under the mask and every length below 2048 |
| Bgapi.BootMessageIsValid | src/bledriver/silabs/sl_bgapi.h:139-148 | the system boot id is a Bluetooth event id under the mask |
| Bgapi.MessageRoundTrip | src/bledriver/silabs/silabs_msg.c:188-225 | the receiver classifies the header of every valid message as an event or a response of the message's length |
| Bgapi.ClassifyIff | src/bledriver/silabs/silabs_msg.c:188-225 | for every header, with the masks as bit operations: an event or a response by its type bits and if its eleven-bit length is at most 256, and otherwise refused |
| SerialLine.Read | src/bledriver/util/gl_uart.c:126-141 | a read takes at most what was asked for from the front of the line, and an error takes nothing |
| SerialLine.Receive | src/bledriver/util/gl_uart.c:99-124 | whatever the schedule, bytes taken plus bytes left are the bytes that were there; a full read has exactly the wanted length |
| SerialLine.Line.Rx | src/bledriver/util/gl_uart.c:99-124 | the loop over a shrinking count computes Receive |
| SerialLine.Line.CacheClean | src/bledriver/util/gl_uart.c:89-96 | the cleaning loop computes Clean, which drops a prefix of the line and nothing else |
| SerialLine.Sender.Tx | src/bledriver/util/gl_uart.c:158-184 | the buffer goes out in order and once, as many bytes as the used writes took together; it fails at the first broken write and at no other |
| ReadLoops.ReceiveEnds | src/bledriver/util/gl_uart.c:99-124 | for every schedule, which read is the last of a payload: it ends at once when the bytes are there, goes on after empty reads and EAGAIN, and is given up only on a broken read; how many bytes it took and whether a reset is wanted |
| ReadLoops.HeaderEnds | src/bledriver/silabs/silabs_msg.c:164-181 | which read is the last of a header: when it is whole, or the first that fails, or the first after which a reset is wanted; no byte is lost or made up |
| ReadLoops.ScanEnds | src/bledriver/silabs/silabs_msg.c:141-158 | which read is the last of the search: the first that takes a start byte, or after which a reset is wanted; failed reads do not end it |
| ReadLoops.CleanEnds | src/bledriver/util/gl_uart.c:89-96 | the cache clean ends with the first read that brings fewer than four bytes and has dropped exactly what its reads brought; if that read would have taken more, the line is empty |
| ReadLoops.CleanGoesOn | src/bledriver/util/gl_uart.c:89-96 | while every read brings four bytes it does not end |
| DriverThread.SilabsDriver.WaitForStart | src/bledriver/silabs/silabs_msg.c:141-158 | the search loop for the start byte computes Scan, including its exit on a pending reset |
| DriverThread.SilabsDriver.HeaderBytesFrom | src/bledriver/silabs/silabs_msg.c:160-181 | the header loop computes ReadHeader, giving the header up on an error or a pending reset |
| DriverThread.SilabsDriver.TakePayload | src/bledriver/silabs/silabs_msg.c:188-249 | demultiplexing, ring slot, drop branch and in-place payload copy leave exactly the state of Dispatch |
| DriverThread.SilabsDriver.NextMessage | src/bledriver/silabs/silabs_msg.c:130-249 | gecko_wait_message computes WaitMessage |
| DriverThread.SilabsDriver.ResetThenWait | src/bledriver/silabs/silabs_msg.c:106-126 | one turn of the loop past an empty ring, reset branch first, computes Turn |
| DriverThread.SilabsDriver.TakeEvent | src/bledriver/silabs/silabs_msg.c:93-128 | gecko_get_event computes GetEvent |
| Receiver.AdvanceIsModular | src/bledriver/silabs/silabs_msg.c:102-102 | the step of the ring indices is the increment modulo 30 |
| DriverThread.SilabsDriver.HandleEvent | src/bledriver/silabs/silabs_msg.c:298-354 | the boot gate and the switch on the id compute Handle |
| DriverThread.SilabsDriver.Run | src/bledriver/silabs/silabs_msg.c:61-79 | the driver loop computes Drive, so every lemma about Drive is about it |
| DriverInvariants.DispatchKeeps | src/bledriver/silabs/silabs_msg.c:200-219 | from an empty ring at most one event is queued, the drop branch is not taken, the boot flag agrees with the history |
| DriverInvariants.TurnKeeps | src/bledriver/silabs/silabs_msg.c:106-126 | the reset branch and the wait are entered with an empty ring and keep the invariant |
| DriverInvariants.GetEventKeeps | src/bledriver/silabs/silabs_msg.c:93-128 | whenever a packet is handed out the ring is empty again and the packet is the last thing in the history |
| DriverInvariants.DriveKeeps | src/bledriver/silabs/silabs_msg.c:61-79 | the ring, order and gate invariants hold after every run of the thread |
| DriverInvariants.EventsOnceAndInOrder | src/bledriver/silabs/silabs_msg.c:93-128 | over every schedule with resets no event is dropped, each accepted one is returned by the thread's next action and once, with the payload received for it, and only what was just returned is handed on |
| DriverInvariants.NoEventOutlivesAReset | src/bledriver/silabs/silabs_msg.c:106-120 | over every schedule whatever is handed on was accepted two actions before, header and payload as received, so never before a reset in between |
| DriverInvariants.FirstHandedOnIsBoot | src/bledriver/silabs/silabs_msg.c:298-354 | between the start or any reset and the next packet handed on, that packet is the boot event and goes to the watcher queue |
| EventHandover.HandedOnIff | src/bledriver/silabs/silabs_msg.c:298-354 | over every schedule with resets: each packet returned is put on the watcher queue at once if and only if its id is one of the twelve and the module had booted or this is its boot; it is kept if and only if it is one of the two discovery events behind the gate; otherwise neither |
| EventHandover.StartUpHandsOver | src/bledriver/silabs/silabs_msg.c:298-354 | from noise, a boot event and any messages: what is put on the queue is exactly the returned messages with those twelve ids, in the order sent, and what is kept exactly those with the two others |
| Framing.WholeFrame | src/bledriver/silabs/silabs_msg.c:164-249 | with a frame at the head of the line exactly that message is stored and exactly its bytes are used, or the schedule ends inside it |
| Framing.BootedTakesFrame | src/bledriver/silabs/silabs_msg.c:93-128 | a booted receiver returns the message at the head of the line and leaves the rest of the stream |
| Framing.BootedRun | src/bledriver/silabs/silabs_msg.c:61-79 | for every message list and every schedule of short and empty reads a run returns a prefix of the list and the unread bytes are the rest of the stream |
| Framing.FramingRoundTrip | src/bledriver/silabs/silabs_msg.c:130-249 | the line is used up if and only if exactly the sent messages came out, in order, headers and payloads |
| Framing.UnbootedTakesBoot | src/bledriver/silabs/silabs_msg.c:141-162 | an unbooted receiver skips any bytes other than the start byte and then takes the boot event whole |
| Framing.StartUpRoundTrip | src/bledriver/silabs/silabs_msg.c:61-79 | from any unbooted state with an empty ring, noise, a boot event and any messages after it: after what had been returned before, the run returns the boot event and then the messages, all of them exactly when the line is used up, and is booted |
| Framing.PowerOnRoundTrip | src/bledriver/silabs/silabs_msg.c:61-79 | the same from the first read of the program, for every schedule, noise, boot payload and message list |
| Framing.ResetRoundTrip | src/bledriver/silabs/silabs_msg.c:106-126 | a reset in the middle of a run: whatever had been returned and whatever the cache clean swallowed, the boot event and the messages that follow come out next |
| Throughput.EverythingArrives | src/bledriver/util/gl_uart.c:99-124 | when every read brings a byte while there is one, as many reads as bytes deliver every message |
| Throughput.EverythingArrivesFromPowerOn | src/bledriver/silabs/silabs_msg.c:61-79 | the same from the first read of the program: noise, boot event and messages are used up, the boot event and every message are returned in order, and the receiver is booted |
| ResetRequests.NoResetUnasked | src/bledriver/silabs/silabs_msg.c:106-120 | in every run without a request there is no reset |
| ResetRequests.ServedAtOnce | src/bledriver/silabs/silabs_msg.c:106-120 | a thread that finds the flag up resets next and lowers it, if some read comes back short and ends the cache clean; requests during the clean are absorbed |
| ResetRequests.CleansForEver | src/bledriver/util/gl_uart.c:89-96 | otherwise it is still cleaning when the schedule ends, whatever its length |
| ResetRequests.RequestWhileSearching | src/bledriver/silabs/silabs_msg.c:141-158 | a request during any read of a search that has met no start byte ends the search, and the reset is the next mark of the history |
| ResetRequests.RequestAfterStartByte | src/bledriver/silabs/silabs_msg.c:147-181 | likewise for a request with the start byte or in the rest of that header |
| ResetRequests.RequestInHeader | src/bledriver/silabs/silabs_msg.c:164-181 | likewise for a request before the header of a booted thread is whole |
| ResetRequests.RequestInPayload | src/bledriver/silabs/silabs_msg.c:229-239 | a request inside a payload waits until that message has been handed out, and then the reset is the next mark |
| ResetRequests.MissingPayloadBlocks | src/bledriver/util/gl_uart.c:110-122 | if the payload never comes whole and no read breaks, no reset is served, however many reads and requests follow |
| ResetRequests.ServedInSilence | src/bledriver/silabs/silabs_msg.c:141-158 | a module that sends nothing: a request at the first read is served with the next |
| ReadErrors.HeaderGivenUp | src/bledriver/silabs/silabs_msg.c:164-176 | a read that fails inside a header, EAGAIN included, loses the header bytes taken so far, and the thread looks for the next header behind them |
| ReadErrors.BrokenEventIsReturned | src/bledriver/silabs/silabs_msg.c:215-239 | an event whose payload breaks off is accepted with the part that came, and returned |
| ReadErrors.BrokenResponseIsLost | src/bledriver/silabs/silabs_msg.c:215-239 | a response whose payload breaks off is not returned, but its header and that part stay in the response packet |
| Commands.PayloadRoundTrip | src/bledriver/silabs/sl_bt_ncp_host_api.c:332-345 | no accepted command is truncated: its fields and its inner length byte or word parse back to the command |
| Commands.CommandIds | src/bledriver/silabs/sl_bt_ncp_host_api.c:345-345 | the header words of the modelled stubs are those of the header file |
| Commands.CharacteristicLayout | src/bledriver/silabs/sl_bt_ncp_host_api.c:2393-2447 | each of the nine fields of the longest command lies at its offset, low byte first |
| Commands.StreamRoundTrip | src/bledriver/silabs/sl_bt_ncp_host_api.c:940-955 | any sequence of accepted commands sent back to back is read as exactly that sequence |
| Commands.CommandPacket.Send | src/bledriver/silabs/silabs_msg.c:267-276 | the bytes sent are the header and as many packet bytes as it says, never what an earlier command left behind |
| Commands.CommandPacket.SystemDataBufferWrite | src/bledriver/silabs/sl_bt_ncp_host_api.c:332-351 | the frame of the command is sent if it fits, and otherwise nothing |
| Commands.CommandPacket.ExtendedAdvertiserSetData | src/bledriver/silabs/sl_bt_ncp_host_api.c:940-961 | likewise, although the packet is written before the length is checked |
| Commands.CommandPacket.GattdbAddUuid16Characteristic | src/bledriver/silabs/sl_bt_ncp_host_api.c:2393-2447 | likewise for nine fields with a 16-bit value length |
| Commands.CommandPacket.GattdbCommit | src/bledriver/silabs/sl_bt_ncp_host_api.c:2749-2767 | the frame of the commit is sent |
| Commands.CommandPacket.GattdbAbort | src/bledriver/silabs/sl_bt_ncp_host_api.c:2769-2787 | the frame of the abort is sent |
| CommandMatch.AnsweredByItsResponse | src/bledriver/silabs/silabs_msg.c:251-279 | over every interleaving the poll succeeds only if the driver thread published a header with the command's id after the header was cleared for it |
| CommandMatch.TimesOutIff | src/bledriver/silabs/silabs_msg.c:251-265 | over every interleaving: a command times out if and only if it polled 3000 times, and at each of those polls the header had another id |
| CommandMatch.NextCommandStarts | src/bledriver/silabs/silabs_msg.c:226-239 | whatever a run leaves behind, half a payload included, is a state in which the next command may start and for which all of this holds again |
| CommandResults.WriterMeans | src/bledriver/silabs/silabs_msg.c:226-239 | the writer of a byte is the response that was coming in when the byte was last stored, and the one published last before that |
| CommandResults.ResultIsOverlay | src/bledriver/silabs/silabs_msg.c:226-279 | over every interleaving, matched or not, with payloads that arrive in pieces or fail: each byte the stub reads is what the response stored last over its position has there, or what the packet held at the start |
| CommandResults.ReadsOwnResponse | src/bledriver/silabs/silabs_msg.c:226-279 | a matched command returns the payload of the response it was matched with if and only if the bytes that were read before its payload was stored over them, or after another one was, happen to be the same |
| CommandResults.ReadsStoredPayload | src/bledriver/silabs/silabs_msg.c:226-239 | when the poll ends the packet holds the payload of the response published last if and only if the part not stored yet equals what the packet holds, and so does what the stub reads if it is left alone |
| CommandResults.ReadsWholeAnswer | src/bledriver/silabs/silabs_msg.c:226-279 | after a match, with the payload stored before the stub reads and nothing published until it has read, whatever else the threads do the result is the payload of a response published with the command's id after the clearing |
| CommandRuns.TornPayload | src/bledriver/silabs/silabs_msg.c:226-239 | for every payload and every front part of it: if only that part is stored before the match, the stub reads it with the old packet behind it |
| CommandRuns.TornResult | src/bledriver/util/gl_uart.c:109-123 | two response bytes 0, 0 over 255, 255 are read as 0, 255 |
| CommandRuns.PayloadMayBeStale | src/bledriver/silabs/silabs_msg.c:226-239 | for every state and payload a poll between header and payload succeeds and the stub reads the packet from before |
| CommandRuns.OvertakenByAnother | src/bledriver/silabs/silabs_msg.c:226-279 | a matched command whose own payload was stored whole still returns another response that is stored before the stub reads |
| CommandRuns.AnotherResponseIsReturned | src/bledriver/silabs/silabs_msg.c:251-279 | any response of another id that is stored while the command polls is its result when the polls are used up |
| CommandResults.UnansweredReadsOthers | src/bledriver/silabs/silabs_msg.c:267-279 | in every run without a response of the command's own id the command is not matched, and its result is what others had stored when the stub read it |
| CommandThread.CommandPort.HandleCommand | src/bledriver/silabs/silabs_msg.c:226-279 | the clearing, sending, polling and reading against a driver thread that copies the payload into the packet in place is one of the runs above under every schedule, so a match and the result mean what they do there |
| ResetHandshake.RunKeeps | src/bledriver/silabs/silabs_bleapi.c:60-119 | the two-thread invariant that ties program counters, flags and history holds in every run |
| ResetHandshake.SuccessIsReal | src/bledriver/silabs/silabs_bleapi.c:60-119 | success implies that within one attempt the flag was raised, cleared by the driver thread, the module seen unbooted and then a boot handled; at return it is booted, no reset is pending and the driver is outside its reset branch |
| ResetHandshake.AlwaysEnds | src/bledriver/silabs/silabs_bleapi.c:67-109 | whatever the driver thread does the call has ended after 1012 of its own steps |
| ResetOutcome.FailureIsReal | src/bledriver/silabs/silabs_bleapi.c:68-116 | over every interleaving: failure means exactly three raised attempts, each of which used up its 300 off polls, or saw the module booted at the off check, or saw it unbooted at all 30 boot polls and at the check after them; and what it saw is what the history of the two threads made of the flags |
| ResetOutcome.SucceedsIff | src/bledriver/silabs/silabs_bleapi.c:68-119 | a call that has ended has succeeded if and only if its last attempt did none of these |
| ResetOutcome.EndsInSuccess | src/bledriver/silabs/silabs_bleapi.c:68-119 | a call given its 1012 steps has succeeded unless its last attempt did one of these |
| ResetOutcome.SuccessIsPossible | src/bledriver/silabs/silabs_bleapi.c:68-119 | from every state in which a call may begin there is a run in which it succeeds at its first attempt |
| ResetThread.HardReset.Reset | src/bledriver/silabs/silabs_bleapi.c:60-119 | the nested countdown loops are one of these runs under every schedule; so success and failure mean what they do there, and success is returned exactly if the last attempt did not give up |
| Reassembly.ExtendedAssembler.Construct | src/bledriver/silabs/silabs_evt.c:339-407 | the machine keyed by address type, address and SID computes the generic step Next, and Inside tells whether its copy stayed in the buffer |
| Reassembly.PeriodicAssembler.Construct | src/bledriver/silabs/silabs_evt.c:409-471 | the machine keyed by sync handle computes the same generic step, and Inside tells whether its copy stayed in the buffer |
| Reassembly.WrapIsRemainder | src/bledriver/silabs/silabs_evt.c:341-341 | the truncation of the running length is the remainder modulo 65536 |
| ReassemblyChains.StepRefines | src/bledriver/silabs/silabs_evt.c:347-404 | one step of buffer, running length and guards is one step of the list-of-fragments reassembler with the same result |
| ReassemblyChains.RunRefines | src/bledriver/silabs/silabs_evt.c:347-404 | over every report sequence with status 0, 1 or 2 the callback is given exactly what the simple reassembler delivers |
| ReassemblyChains.FreshAfterTheEnd | src/bledriver/silabs/silabs_evt.c:347-404 | after a complete or truncated report no further reports can tell the machine from a fresh one |
| ReassemblyChains.OnlyOwnFragments | src/bledriver/silabs/silabs_evt.c:366-374 | incomplete reports of other keys leave an open chain as it is, however they are mixed in |
| ReassemblyChains.ChainDelivered | src/bledriver/silabs/silabs_evt.c:339-407 | a chain mixed with incomplete reports of others is delivered exactly when its 16-bit length is at most 1024, and with fragments below 1024 as their concatenation |
| ReassemblyChains.DeliveredIffBelowLimit | src/bledriver/silabs/silabs_evt.c:376-380 | a chain that fits is delivered unharmed if and only if its incomplete fragments stay below 1024 bytes or the fragments not stored are all zero |
| ReassemblyChains.ExactLimitLosesData | src/bledriver/silabs/silabs_evt.c:376-380 | a chain of exactly 1024 bytes whose last fragment is lost |
| ReassemblyChains.CompleteIgnoresKey | src/bledriver/silabs/silabs_evt.c:385-404 | for every chain: behind another advertiser's chain a complete report yields its own bytes alone exactly when the 16-bit length of the chain is 0, and nothing exactly when the 16-bit length of both is above 1024; below the limit both are delivered together |
| ReassemblyChains.InsideIff | src/bledriver/silabs/silabs_evt.c:376-387 | for every chain and status: the copy stays in the buffer if and only if the report is incomplete, truncated or empty, or the 16-bit length leaves room for its data |
| ReassemblyChains.RunInsideIff | src/bledriver/silabs/silabs_evt.c:347-404 | over every report sequence with status 0, 1 or 2 no copy leaves the buffer if and only if every complete report has room |
| ReassemblyChains.OverrunIsDelivered | src/bledriver/silabs/silabs_evt.c:385-404 | a complete report whose copy left the buffer is delivered if and only if the 16-bit length wraps, and then as the front of what was stored before |
| ReassemblyChains.OverrunArrives | src/bledriver/silabs/silabs_evt.c:376-404 | from any idle state, 257 incomplete fragments of 255 bytes and one more byte: that byte is written 64511 bytes behind the buffer and an empty report is delivered |
| ReassemblyChains.UnknownStatus | src/bledriver/silabs/silabs_evt.c:385-404 | after a status above 2, whoever sent it and whether or not a chain is open, the data is stored and counted, and the chain is unharmed exactly when the report was empty |
| ReassemblyChains.UnknownStatusJoins | src/bledriver/silabs/silabs_evt.c:385-387 | below the limit a report with a status above 2, whoever sent it, becomes the next fragment of the open chain |
| DeviceList.DeviceManager.SearchByAddress | src/components/dev_mgr/gl_dev_mgr.c:158-173 | finds the node of the first entry with the address, or none |
| DeviceList.DeviceManager.SearchByConnection | src/components/dev_mgr/gl_dev_mgr.c:174-187 | finds the node of the first entry with the handle, or none |
| DeviceList.DeviceManager.Add | src/components/dev_mgr/gl_dev_mgr.c:191-233 | replaces the handle of a known address in place and otherwise appends; the circle of pointers stays whole |
| DeviceList.DeviceManager.Del | src/components/dev_mgr/gl_dev_mgr.c:235-263 | unlinks the earliest entry with the handle, refuses handle 0, reports an unknown one |
| DeviceList.DeviceManager.GetAddress | src/components/dev_mgr/gl_dev_mgr.c:265-289 | the address of the earliest entry with the handle; 0 and unknown handles are errors |
| DeviceList.DeviceManager.GetConnection | src/components/dev_mgr/gl_dev_mgr.c:291-314 | the handle of the entry with the address; a null or unknown address is an error |
| DeviceList.DeviceManager.ListSize | src/components/dev_mgr/gl_dev_mgr.c:316-330 | the traversal counts the entries |
| DeviceList.DeviceManager.DelAll | src/components/dev_mgr/gl_dev_mgr.c:350-369 | the list is empty and the head is linked to itself |
| DeviceMap.AddIsMapUpdate | src/components/dev_mgr/gl_dev_mgr.c:191-233 | adding is a map update that keeps addresses distinct; a new address is listed last and a known one keeps its place |
| DeviceMap.DeleteIsMapRemove | src/components/dev_mgr/gl_dev_mgr.c:235-263 | deleting removes one address from map and order and leaves the rest in order |
| DeviceMap.LookupsAreInverse | src/components/dev_mgr/gl_dev_mgr.c:265-314 | with distinct handles, lookup by address and lookup by handle undo each other |
| DeviceMap.ListMirrorsConnections | src/bledriver/silabs/silabs_evt.c:107-129 | over every history in which live addresses and non-zero handles correspond one to one the list is the set of live connections after every event, and no lookup fails |
| DeviceMap.CloseReportsOpenedAddress | src/bledriver/silabs/silabs_evt.c:107-129 | the close of a live handle finds the text of the address it was opened with, which converts back to that address |
| DeviceMap.StopsIffNotLive | src/bledriver/silabs/silabs_evt.c:107-129 | the watcher leaves its loop exactly when asked about a handle that is not live |
| DeviceMap.LateApiAdd | src/bledriver/silabs/silabs_bleapi.c:509-533 | a late add by the API thread keeps the list equal to the live connections exactly when its connection is still live |
| DeviceMap.LateApiAddIsStale | src/bledriver/silabs/silabs_bleapi.c:528-530 | an open and a close that overtake the API thread leave a stale entry |
| ConnectionWatcher.Watcher.ConnectionOpened | src/bledriver/silabs/silabs_evt.c:311-330 | the opened case does on the linked list what the history step does |
| ConnectionWatcher.Watcher.ConnectionClosed | src/bledriver/silabs/silabs_evt.c:107-129 | the closed case reports the recorded address and deletes the entry, or stops the watcher |
| ConnectionWatcher.Watcher.AddressOf | src/bledriver/silabs/silabs_evt.c:130-153 | an event that needs the address of its connection gets the recorded one, or stops the watcher |
| HexCodec.HexRoundTrip | src/bledriver/util/gl_common.c:47-74 | hex2str then str2array gives back the bytes, for every length |
| HexCodec.TextRoundTrip | src/bledriver/util/gl_common.c:47-74 | str2array then hex2str gives back the text in lower case |
| HexCodec.DigitsAre | src/bledriver/util/gl_common.c:47-74 | the sixteen digits have their values, letters in either case |
| HexCodec.Str2Array | src/bledriver/util/gl_common.c:47-57 | the scanning loop fills the buffer with the decoded bytes |
| HexCodec.Hex2Str | src/bledriver/util/gl_common.c:58-74 | the printing loop fills the buffer with the encoded text |
| HexCodec.AddressRoundTrip | src/bledriver/util/gl_common.c:28-45 | addr2str then str2addr is the identity on six bytes |
| HexCodec.AddressText | src/bledriver/util/gl_common.c:28-35 | the printed address has the last byte first, the high digit first, and colons between the pairs |
| HexCodec.ReverseEndian | src/bledriver/util/gl_common.c:76-86 | the copy loop reverses the buffer in place |
| HexCodec.ReverseTwice | src/bledriver/util/gl_common.c:76-86 | reversing is an involution, and the reversed bytes read in the other byte order are the same word |
| LongData.AllBytesSentIff | src/bledriver/util/gl_common.c:88-115 | the chunk loop sends everything exactly below 65280 bytes |
| LongData.WriteLongData | src/bledriver/util/gl_common.c:88-115 | computes LongWritten under every schedule of failures; on success the NCP's buffer holds exactly the bytes sent, on failure what it held or a prefix of the data |
| LongData.SetAdvData | src/bledriver/silabs/silabs_bleapi.c:350-446 | computes AdvDataSet under every schedule of failures; on success the set has the decoded text installed (behind an uncleared buffer at 255 bytes), on failure it has what it had; parameter errors exactly for missing, odd or over-long text |
| LongData.InstallsTheTextIff | src/bledriver/silabs/silabs_bleapi.c:372-379 | the installed bytes are the decoded text exactly when the buffer was empty or the text is not 255 bytes |
| LongData.InstalledTextRoundTrip | src/bledriver/silabs/silabs_bleapi.c:350-397 | what is installed prints back as the given text in lower case |
| LongData.HistoryInstallsTexts | src/bledriver/silabs/silabs_bleapi.c:350-446 | from an empty buffer, over every history of calls that the NCP does not refuse, each set has the last text given for it and the buffer is empty |
| LongData.FailureLeavesBytes | src/bledriver/util/gl_common.c:88-115 | after any long write whose second write fails, the next text of 255 bytes is installed behind the first 255 bytes of the other |
| GattDelete.Enumerate | src/bledriver/silabs/silabs_bleapi.c:1167-1201 | the loop ends and collects the service handles in increasing order, each once, as many as Found says of the schedule of wrong searches |
| GattDelete.RemoveAll | src/bledriver/silabs/silabs_bleapi.c:1203-1211 | the collected services are removed from the staged database, last first, and no other |
| GattDelete.DeleteAll | src/bledriver/silabs/silabs_bleapi.c:1150-1221 | exactly one session, closed once; success removes the services found, and empties the database if and only if at most one of the first searches, one more than there are services, went wrong; failure leaves the database as it was |
| GattDelete.FindsAllIff | src/bledriver/silabs/silabs_bleapi.c:1167-1201 | the searches find all services exactly when the second wrong one, if any, comes after all of them were found |
| GattTree.DescriptorsGoToLast | src/bledriver/silabs/silabs_bleapi.c:1029-1118 | descriptors staged for the last characteristic are added to it, in order, and change nothing else, if and only if all fit their commands |
| GattTree.CharacteristicsGoToLast | src/bledriver/silabs/silabs_bleapi.c:937-1120 | characteristics staged for the last service are added to it with their descriptors, in order, if and only if all fit their commands |
| GattTree.CharacteristicsMatchIff | src/bledriver/silabs/silabs_bleapi.c:1007-1112 | what the described tree means: property, flag, UUID, value type, maximum length and value of every characteristic and descriptor are those of the fields of that name, bytes as the hexadecimal text spells them, in order; this determines the characteristics of a service |
| GattTree.StagedIsTheTree | src/bledriver/silabs/silabs_bleapi.c:887-1126 | with UUIDs of 2 or 16 bytes, what the nested loops stage on top of a database is exactly the described tree, field by field and in order; and it stages if and only if every service UUID and value fits its command |
| GattSizes.StagingAddsKnown | src/bledriver/silabs/silabs_bleapi.c:1007-1112 | whatever is staged, exactly as many characteristics and descriptors are added as have a UUID of 2 or 16 bytes |
| GattSizes.StagedIsTheTreeIff | src/bledriver/silabs/silabs_bleapi.c:887-1126 | for every database and description that stages, no field was missing, and the result is the described tree if and only if every characteristic and descriptor has a UUID of 2 or 16 bytes |
| GattSizes.StagedAloneIff | src/bledriver/silabs/silabs_bleapi.c:887-1126 | the whole staged database is the described tree if and only if it was staged on an empty one and every UUID has 2 or 16 bytes |
| GattExample.OddUuidIsPassedOver | src/bledriver/silabs/silabs_bleapi.c:1007-1022 | a service whose second characteristic has a 4-byte UUID stages without an error; the characteristic is missing and its descriptor is on the first one |
| GattReplace.AddServices | src/bledriver/silabs/silabs_bleapi.c:887-1126 | the nested loops against a failing NCP stage exactly what the description says, or leave for the abort |
| GattReplace.Install | src/bledriver/silabs/silabs_bleapi.c:864-1148 | exactly one session, closed by one commit or one abort; success commits the staged description, failure leaves the database |
| GattReplace.SetGattDb | src/bledriver/silabs/silabs_bleapi.c:805-1148 | for every pattern of failures and missing fields at most two sessions, each closed once; the database ends as it was, without the services the deletion found, or as described on top of them |
| GattReplace.SetDescribedGattDb | src/bledriver/silabs/silabs_bleapi.c:805-1148 | success means that the database is the described tree if and only if all UUIDs have 2 or 16 bytes and at most one of the first searches was wrong, and with such UUIDs it is that tree behind the services the searches missed; failure leaves the original or those; without failures such a description is installed if and only if it fits |
| GattReplace.SetExampleGattDb | src/bledriver/silabs/silabs_bleapi.c:1007-1022 | the call succeeds on that service and the database is not the described tree |
| IBeaconPacket.PacketBytes | src/example/bleIbeacon/run_mode.c:172-173 | the printed text decodes to the nine header bytes followed by the bytes of the four arguments |
| IBeaconPacket.SenderToReceiver | src/example/bleIbeacon/ibeacon.c:44-55 | every packet printed from arguments of the checked lengths is recognised and decodes to them in lower case, the power as a signed byte |
| IBeaconPacket.ReceiverToSender | src/example/bleIbeacon/ibeacon.c:69-98 | every recognised packet is what the sender prints for its decoded fields |
| IBeaconPacket.DecodingIsInjective | src/example/bleIbeacon/ibeacon.c:69-146 | recognised packets with the same decoded fields are the same packet |
| IBeaconPacket.DecodeTells | src/example/bleIbeacon/ibeacon.c:117-135 | a decoded beacon gives the address, address type, RSSI, event flags, bonding, UUID, major, minor and signed power of its report |
| IBeaconPacket.SameBeaconSameReport | src/example/bleIbeacon/ibeacon.c:117-135 | two recognised reports of which the same beacon tells are the same report |
| IBeaconRing.Ring.DataCollect | src/example/bleIbeacon/ibeacon.c:57-67 | a recognised report is written to the ring and to the log, any other changes nothing |
| IBeaconRing.Ring.GetVendor | src/example/bleIbeacon/ibeacon.c:100-146 | a read yields a beacon that tells, field by field, of the newest write whose index is congruent to the number of reads modulo 1024, which is the oldest unread one while fewer than 1024 are unread, or nothing when the counters agree |
| IBeaconRing.OldestUnreadIff | src/example/bleIbeacon/ibeacon.c:110-137 | a read returns the oldest unread report exactly when between 1 and 1023 are unread |
| IBeaconRing.NeverCatchesUp | src/example/bleIbeacon/ibeacon.c:110-137 | once 1024 reports are unread the backlog never falls below 1024 again, in any run |
| IBeaconRing.ReadsInOrder | src/example/bleIbeacon/ibeacon.c:57-67 | if the backlog is below 1024 at the end of a run the reads are the next writes in order, none skipped or repeated |
| IBeaconRing.ReadsArePrefix | src/example/bleIbeacon/ibeacon.c:57-67 | from an empty ring the reads are a prefix of the recognised packets of the run |
| IBeaconRing.SentIsRead | src/example/bleIbeacon/run_mode.c:168-174 | a packet from the sender collected into a drained ring is the next one found, and a beacon that tells of it has the sender's fields and the report's own address, RSSI, flags and bonding |

## Left out

- Opening the serial port, termios, GPIO shell commands, configuration lookup and firmware update: input and output with nothing to prove. A read or write is an entry of a schedule; a port that is not open is not modelled.
- Big-endian hosts: with `ENDIAN` set some fields are swapped twice, so there is no consistent encoding to prove.
- The other generated command stubs and the event structures: they repeat the pattern of the modelled ones.
- The watcher queue: a packet handed on is an entry of the driver's history; whether msgsnd takes it is not modelled.
- The array of 50 kept discovery events is an entry of the history too; its bound is not checked by the code and not modelled.
- Service and characteristic lists (`silabs_ble_get_service`, `silabs_ble_get_char`): they depend on timing and on counts that the code does not bound.
- Timing: a poll is a step, and no step has a duration.
- Memory ordering between the threads: steps of the two threads interleave one at a time, a header word is written at once and payload bytes in pieces of any size, and in the driver thread the API thread's reset request is seen before or after a read.
- Locks: the API calls are serialised by a mutex and the device list has its own, so one call is modelled at a time, except for the add by `silabs_ble_connect`.
- JSON parsing and the callbacks that print: the GATT description is a parsed tree whose fields may be missing.
- Allocation failures and the lifetime of buffers.
- Reassembly.ExtendedAssembler.Construct: a copy past the end of the 1024-byte buffer stops at its end, because what C does there is undefined; `ReassemblyChains.InsideIff` says which reports do that.
- Reassembly.PeriodicAssembler.Construct: the same.
- ReassemblyChains.StepRefines: after a copy that left the buffer, the rest of memory is taken to be as it was; likewise in RunRefines, FreshAfterTheEnd and ChainDelivered.
- ReassemblyChains.FreshAfterTheEnd: likewise.
- ReassemblyChains.ChainDelivered: likewise.
- HexCodec.Str2Array: only for hexadecimal text of even length, because what sscanf leaves behind for other text depends on the previous character pair or on uninitialised memory.
- LongData.SetAdvData: for the same reason text of acceptable length has to be hexadecimal.
- Commands.CommandPacket.Send: the UART takes the whole frame; SerialLine.Sender.Tx has the partial writes.
- GattDelete.DeleteAll: at most 16 services with increasing handles between 1 and 0xfffe, because the code has room for 16 and its 16-bit start wraps after 0xffff; reading the attribute's value is not modelled, because its result is not used.
- GattSizes.StagedIsTheTreeIff: the database on top of which is staged lists its services by increasing handle, as the NCP does.
- GattReplace.SetGattDb: lists of at most 255 entries, beyond which the 8-bit loop counters never reach the end, and texts at least as long as their stated lengths. Handles are the NCP's choice; here a new service gets the next one and a characteristic is known by its place.
- ReassemblyChains.RunRefines: statuses 0, 1 and 2; UnknownStatus says what the others do. Copies that leave the buffer are as in StepRefines.
- ConnectionWatcher.Watcher.ConnectionClosed: one step. In the code the lookup and the deletion take the list lock separately, so the API thread's add or the reset's deletion of everything can fall between them.
- IBeaconPacket.PacketBytes: arguments of the right lengths that are hexadecimal, because what sscanf makes of other text depends on the previous character pair or on uninitialised memory.
- IBeaconPacket.SenderToReceiver: for the same reason arguments that are hexadecimal.
- IBeaconRing.Ring.GetVendor: collecting and reading are single steps, so a report overwritten while it is being read is not modelled.
