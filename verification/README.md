# Virtual smart card: protocols and codecs

A Dafny model of the parts of the repository in which a reader, a card and the
programs between them have to agree: the vpcd wire protocol and its relay, the
request life cycle of the BixVReader driver, the PC/SC front end, the CCID
emulation, and the small codecs. `dafny verify dfyconfig.toml` checks all of it.

| file | models |
|---|---|
| `Bytes.dfy`, `Basics.dfy` | bytes, fixed-width integers, what all modules share |
| `Framing.dfy` | frames: two bytes of length, most significant first, and the payload |
| `Vpcd.dfy` | `vpcd.c`: sockets, partial sends, all-or-fail reads, the operations of a reader |
| `Relay.dfy` | `vicc.c` and the main loop of `pcsc-relay.c` on top of that library |
| `Protocol.dfy` | reader and relay as two step machines over two byte queues, and their invariant |
| `Runs.dfy` | what every run keeps, that every schedule finishes, and the APDUs that block |
| `Recovery.dfy` | the relay through any number of lost connections |
| `Refinement.dfy` | that a call of the library is a run of the reader's steps, and returns its own answer |
| `AtrScan.dfy` | the ATR scanner against a recursive reading of the interface bytes |
| `Requests.dfy` | the places a driver request can be in, and the locked blocks that move it |
| `Dispatch.dfy` | those blocks in every interleaving, with shutdown and deletion |
| `VpcdReader.dfy`, `ReaderRuns.dfy` | the vpcd back end handler by handler, and runs of it |
| `Interleaving.dfy` | that these handlers are runs of `Dispatch.dfy` |
| `Device.dfy`, `InstanceNames.dfy` | the reader table under power callbacks, and which reader a request names |
| `Sharing.dfy`, `StatusChange.dfy`, `ReaderNames.dfy` | share modes and counters, the polling loop, reader lists and the walk over them |
| `Ccid.dfy`, `Pace.dfy`, `PinBlock.dfy` | CCID messages and replies, PACE buffers, PIN blocks |
| `OpenPicc.dfy`, `Padding.dfy` | OpenPICC hex lines, padding method 2 of ISO/IEC 9797-1 |

Code that changes state step by step is a class with the fields of the source,
each method proved against a function of the old state; what the source promises
over whole runs is proved about those functions. `Protocol.dfy` and
`Dispatch.dfy` are state machines because two programs, or several threads,
take turns there. Results of calls into the operating system, the driver
framework, OpenSC and the card are parameters or nondeterministic: `send` takes
any positive part or fails, a read delivers all bytes or fails, failures last,
and the card is an arbitrary function of what it executed before.

## What the code does differently

Where a promise does not hold, the lemma named gives the exact condition.

- `vicc_transmit` takes a one-byte APDU, which the relay takes for a control
  byte: the caller blocks for ever unless it is 0x04
  (`Runs.TransmitBlocksExactlyOnControlBytes`).
- After a connection is lost with an error, and after a one-byte APDU that is no
  control byte, the relay executes its old C-APDU buffer once more and sends the
  answer to whoever connects next
  (`Recovery.RelayIsRightExactlyWhenAlwaysClean`).
- The handler of an IS_PRESENT or IS_ABSENT that is inside when a shutdown begins,
  or passes the null test before the reader is deleted, can park its request on
  the deleted reader, unless it has found, or can only find, what it asks for
  (`Dispatch.ShutdownStrandsExactlyIf`, `Dispatch.LateWaiterHappens`).
- `SCardEndTransaction` stores the disposition as the share mode, and RESET_CARD
  is the number of the exclusive mode (`Sharing.ExclusiveMeansAloneExactlyIf`).
- The PACE output's 16-bit length field can overflow, as only the fields are
  checked (`Pace.LengthFieldCounts`); with the PIN length asked for, the length
  overwrites the first digit of a block sized for the PIN
  (`PinBlock.PinSurvivesItsLength`).
- IccPowerOn is answered with a slot status where CCID Rev 1.1 asks for a data
  block (`Ccid.RepliesMatchTheirRequests`); GetParameters leaves no readable reply
  (`Ccid.ParametersAreReadableExactlyByChance`); a response of more than 0xFFFD bytes is
  exchanged with the card and then dropped
  (`Ccid.CardIsAnsweredForUpToTheLimit`).
- `picc_encode_rapdu` cuts its line behind the length of 1 to 0xFFF bytes, as it
  reserves columns for four digits (`OpenPicc.EmittedIsTheLineExactlyIf`).
- `SCardListReaders` leaves buffers of some sizes
  (`ReaderNames.StaysInsideExactlyIf`), and `write_pin` the block of a
  right-aligned PIN that is longer, unless its first character is refused
  (`PinBlock.WritePin`).
- `strip_padding` accepts data that were never padded
  (`Padding.StripUndoesExactlyWellPadded`).

## Model

| member | source | states |
|---|---|---|
| `Framing.FrameIsPrefixFree` | virtualsmartcard/src/vpcd/vpcd.c:239-242 | A receiver that reads one frame off any stream reads the frame that was written and leaves exactly what followed it: the two-byte length makes frames prefix-free. |
| `Framing.FramesAppend` | virtualsmartcard/src/vpcd/vpcd.c:226-255 | Sending one list of messages after another puts the frames of the joined list on the wire. |
| `Framing.ReceivedIsSent` | virtualsmartcard/src/vpcd/vpcd.c:226-286 | Reading any number of frames off the frames of a list of messages recovers the first messages of that list, in order, and leaves the frames of the others. |
| `Vpcd.ViccCtx.SendAll` | virtualsmartcard/src/vpcd/vpcd.c:67-88 | For every schedule of positive partial sends the loop ends and has written exactly the data, in order; after an error at most a prefix. |
| `Vpcd.ViccCtx.SendToVICC` | virtualsmartcard/src/vpcd/vpcd.c:226-255 | Success writes exactly one frame; more than 0xFFFF bytes are refused; any other failure has ejected the client. |
| `Vpcd.ViccCtx.RecvFromVICC` | virtualsmartcard/src/vpcd/vpcd.c:257-286 | A positive result is the body of the first frame of the stream and consumes just that frame, in spite of the unsigned test that lets a failed first read through; 0 means that the peer has closed or sent an empty frame, and less that the connection is broken. |
| `Vpcd.ViccCtx.Eject` | virtualsmartcard/src/vpcd/vpcd.c:288-298 | Leaves no client socket, and closes the one there was exactly once. |
| `Vpcd.ViccCtx.Exit` | virtualsmartcard/src/vpcd/vpcd.c:347-366 | Afterwards every socket that was ever accepted has been closed, in the order of acceptance, and the listening socket is closed. |
| `Vpcd.SerialsAreClosedOnce` | virtualsmartcard/src/vpcd/vpcd.c:288-298 | In a list of closed sockets as `Exit` leaves it each accepted socket occurs exactly once and no other does. |
| `Vpcd.ViccCtx.Transmit` | virtualsmartcard/src/vpcd/vpcd.c:368-391 | A result of 0 or less leaves no client connected; a positive one means that one frame was written if there was an APDU, and that the answer is the one frame consumed if one was wanted. |
| `Vpcd.ViccCtx.GetAtr` | virtualsmartcard/src/vpcd/vpcd.c:427-430 | A positive result wrote one ATR request and consumed one frame, which is the answer; 0 means that it was written and the peer has closed or sent an empty frame, and less that the connection is not there or no longer up. |
| `Vpcd.ViccCtx.Control` | virtualsmartcard/src/vpcd/vpcd.c:432-466 | ON, OFF and RESET write one frame and consume nothing; they fail, and leave no client, only if the connection is not there or no longer up. |
| `Vpcd.ViccCtx.Connect` | virtualsmartcard/src/vpcd/vpcd.c:393-413 | In server mode at most one accepted socket is open at any time: a connection that is there is kept, and without one a client is accepted exactly if one is ready. |
| `Vpcd.ViccCtx.Present` | virtualsmartcard/src/vpcd/vpcd.c:415-425 | Says yes exactly if a client is left connected, which has then been asked for its ATR and has sent one; it says no exactly without a client, old or new, or for one whose connection is no longer up or which answered the request with an empty frame, and which has been ejected. |
| `Relay.ReceiveCapdu` | pcsc-relay/src/vicc.c:102-147 | A C-APDU that is returned is the first message that is no control byte; everything before it was control bytes, and exactly one ATR frame was written for each ATR request among them and nothing for ON, OFF and RESET. An orderly end of the connection is a success without a C-APDU; it fails exactly behind control bytes followed by a broken connection, after which it is ejected, or by an unknown byte, after which it stays. |
| `Relay.SendRapdu` | pcsc-relay/src/vicc.c:149-163 | Success writes exactly one frame, nothing for an empty answer; failure leaves no connection. |
| `Relay.MainLoop.Turn` | pcsc-relay/src/pcsc-relay.c:220-250 | One pass executes at most one C-APDU: the first one on the wire, whose answer is the one frame written behind the ATRs, or, only after a receive that failed for a broken connection or an unknown byte, one of the length of the old buffer, answered on the new connection. The buffer holds what was received even if the answer could not be sent. |
| `Protocol.ReaderTakesBody` | virtualsmartcard/src/vpcd/vpcd.c:257-286 | The frame a blocked reader takes is the whole answer of the card to the request the reader sent last, and nothing stays behind it. |
| `Protocol.RequestCase` | pcsc-relay/src/pcsc-relay.c:220-250 | The card takes the request only when all silent messages before it are taken, and then has exactly that request's answer to write, or none if it takes a one-byte APDU for another control byte; an unknown byte, and nothing else, makes it give up. |
| `Protocol.SilentCase` | pcsc-relay/src/vicc.c:120-127 | An ON, OFF or RESET frame at the front of the queue is taken without an answer, and a request behind it is still asked, with the frames behind it untouched. |
| `Protocol.CardStepKeepsInv` | pcsc-relay/src/vicc.c:102-163 | No step of the card breaks the match of requests and answers, whatever part of its frame the reader has sent. |
| `Protocol.StepKeepsInv` | pcsc-relay/src/pcsc-relay.c:220-250 | Every step of either process, in any interleaving and with any partial sends, keeps the two byte queues matched: they hold exactly the frames under way, and each answer logged is the card's answer to that request after that history. |
| `Runs.OperationsAreInOrder` | virtualsmartcard/src/vpcd/vpcd.c:368-466 | Over every run of one connection the exchanges that are over, with the one under way, are just the operations the caller began, in order: none is lost, doubled or answered early. |
| `Runs.EveryAnswerIsItsOwn` | virtualsmartcard/src/vpcd/vpcd.c:368-466 | Over every run of one connection, with any requests, each exchange got the card's answer to that very operation, the card having executed just the APDUs before it; while the reader is idle no byte is left for it anywhere; and the card gives up for nothing but a one-byte APDU. |
| `Runs.EveryScheduleFinishes` | virtualsmartcard/src/vpcd/vpcd.c:368-391 | However the two processes are scheduled, a bounded number of steps leads to where nothing moves, and there every message is taken, both queues are empty, and the reader is idle unless it waits on a one-byte APDU. |
| `Runs.SomeScheduleFinishes` | virtualsmartcard/src/vpcd/vpcd.c:368-391 | From every state of the protocol some schedule leads to where nothing moves. |
| `Runs.TransmitBlocksExactlyOnControlBytes` | virtualsmartcard/src/vpcd/vpcd.c:368-391 | In every idle state of a connection, whatever is still under way, an operation begun then can leave its caller blocked for ever exactly if it is an APDU of one byte other than the byte that asks for the ATR. |
| `Runs.UnanswerableAlwaysBlocks` | virtualsmartcard/src/vpcd/vpcd.c:368-391 | And then every schedule blocks it: no run lets such a caller return. |
| `Runs.StuckIsIdle` | virtualsmartcard/src/vpcd/vpcd.c:368-391 | Of the states in which neither process can move, the protocol reaches only those with both queues empty and the reader idle or waiting on a one-byte APDU: there is no other deadlock. The card has given up exactly if that byte is unknown to it. |
| `Recovery.ReconnectIsRightExactlyWhenClean` | pcsc-relay/src/pcsc-relay.c:220-250 | After a connection is lost or given up, every run on the new one is right exactly if the relay saw an orderly end while it waited, was sending an R-APDU or could not, was sent an empty message, or has an empty buffer; a relay that gave up on an unknown byte is not among them. |
| `Recovery.RelayIsRightExactlyWhenAlwaysClean` | pcsc-relay/src/pcsc-relay.c:220-250 | Over every run of the relay through any number of connections, with any requests and however each connection ends, every answer is right exactly if every loss was such a clean one. |
| `Recovery.BufferHasTheLastLength` | pcsc-relay/src/pcsc-relay.c:220-250 | Over every run through any number of connections, the buffer that is executed again has the length of the last C-APDU the card took on any of them; it is empty if there was none, or if a receive has come back with nothing since. |
| `Recovery.UnknownByteIsNeverClean` | pcsc-relay/src/vicc.c:134-136 | Whenever a one-byte APDU that is no control byte is sent, every schedule ends with the relay giving up, and however the connection then ends that is unclean exactly if the buffer is not empty. |
| `Recovery.StaleAnswerIsDelivered` | pcsc-relay/src/pcsc-relay.c:220-250 | After any unclean loss the next request, whatever it is, can be given the answer to the old C-APDU. |
| `Recovery.ResentIsSentOnce` | pcsc-relay/src/pcsc-relay.c:235-250 | The answer to the old buffer is sent like any other: losing the new connection meanwhile does not execute the buffer a third time. |
| `Refinement.TransmitSends` | virtualsmartcard/src/vpcd/vpcd.c:368-391 | What Transmit promises of a positive result is a run of the protocol: begun while the reader is idle, for every schedule of positive partial sends the reader's steps write just the frame the contract promises and wait for the answer. |
| `Refinement.TransmitReceives` | virtualsmartcard/src/vpcd/vpcd.c:368-391 | And once the answer is in the queue, the reader's next two steps consume just the frame the contract promises and log the answer the call returns. |
| `Refinement.CardKeepsLink` | virtualsmartcard/src/vpcd/vpcd.c:368-391 | A step of the card does not change what the caller sees of the wire: what it takes was written before, and what it delivers is what the caller will read next. |
| `Refinement.LinkIsKept` | virtualsmartcard/src/vpcd/vpcd.c:368-391 | The same over every interleaving of sends and card steps, which leaves the log alone. |
| `Refinement.TransmitReturnsItsOwnAnswer` | virtualsmartcard/src/vpcd/vpcd.c:368-391 | A positive result of Transmit, begun in any idle state of a connection with whatever the card still has to take: for every interleaving with the card until the answer is there, the call is one run of the protocol, and the answer it returns is the card's to its own APDU after the APDUs of the calls before it. |
| `Refinement.OnTheWire` | virtualsmartcard/src/vpcd/vpcd.h:38-43 | The control messages are the bytes 00 01 and 00, 01, 02 or 04, and an APDU travels behind its length, high byte first. |
| `Refinement.RelayReactsAlike` | pcsc-relay/src/vicc.c:120-163 | What the relay does with a control byte, an ATR request and an R-APDU is what the card of the state machine does with them. |
| `AtrScan.SetBitSetsOne` | virtualsmartcard/win32/BixVReader/Reader.cpp:415-416 | Adding protocol k to the mask sets bit k and changes no other bit. |
| `AtrScan.Look` | virtualsmartcard/win32/BixVReader/Reader.cpp:402-420 | One byte behind T0: skipped, taken for a TDi, or the first historical byte, as the recursive reading of what is left says. |
| `AtrScan.RestIsTDBytes` | virtualsmartcard/win32/BixVReader/Reader.cpp:397-420 | Shifting through the letters A to D one byte at a time finds the same TDi bytes as the recursive reading of blocks in section 8.2 of ISO/IEC 7816-3:2006, for every byte sequence, also a truncated one. |
| `AtrScan.Scan` | virtualsmartcard/win32/BixVReader/Reader.cpp:380-429 | The loop ends in spite of its `--i`, and leaves the set of protocols of the TDi chain, T=0 if there is none, and in `protocol` the last TDi's low nibble. |
| `AtrScan.AvailableBits` | virtualsmartcard/win32/BixVReader/Reader.cpp:413-425 | Bit k of `availableProtocol` is set exactly if some TDi reached inside the buffer has low nibble k, or no TDi is reached and k is 0. |
| `AtrScan.ChoiceIsOffered` | virtualsmartcard/win32/BixVReader/Reader.cpp:106-160 | For every mask and ATR the protocol chosen is T=0 or T=1, on offer and asked for by name or default; T=1 wins when it is both requested and offered; none is chosen exactly if nothing asked for is on offer. |
| `Requests.PlacesExclude` | virtualsmartcard/win32/BixVReader/device.cpp:374-404 | A request with one place is not at once handled and parked, parked twice, or parked and completed; and it has a place exactly if it arrived. |
| `Requests.PopKeeps` | virtualsmartcard/win32/BixVReader/VpcdReader.cpp:119-126 | One round of a drain loop, which leaves a waiter to the cancel callback if the framework says so, keeps every request in exactly one place. |
| `Requests.ParkKeeps` | virtualsmartcard/win32/BixVReader/Reader.cpp:40-45 | Parking a request keeps every request in exactly one place. |
| `Requests.FinishKeeps` | virtualsmartcard/win32/BixVReader/memory.cpp:38-88 | Completing the request in hand keeps every request in exactly one place; in particular it was not completed before. |
| `Requests.RunCancelKeeps` | virtualsmartcard/win32/BixVReader/device.cpp:374-404 | The cancel callback keeps every request in exactly one place, whether the request is still on a list or was popped by a drain that left it to the callback. |
| `Requests.DrainServesAll` | virtualsmartcard/win32/BixVReader/VpcdReader.cpp:114-139 | A drain empties its list, completes exactly the waiters that are not being cancelled with its status, and touches nothing else. |
| `Dispatch.EveryRequestHasOnePlace` | virtualsmartcard/win32/BixVReader/device.cpp:307-404 | In every interleaving of dispatch, card events, cancellation and shutdown each request that arrived is in flight, parked once, in the hands of the cancel callback, or completed, and none is completed twice. |
| `Dispatch.RunKeepsInv` | virtualsmartcard/win32/BixVReader/device.cpp:307-404 | Along every interleaving the invariant holds and what was completed stays completed. |
| `Dispatch.NewcomersPassExactlyIf` | virtualsmartcard/win32/BixVReader/device.cpp:326-331 | A request is let in exactly while the reader is there, and afterwards completed with INVALID_DEVICE_STATE. |
| `Dispatch.QuietShutdownStrandsNobody` | virtualsmartcard/win32/BixVReader/device.cpp:262-276 | A shutdown during which no handler inside may still park its request, and none enters, deletes the reader with both wait lists empty, whatever else happens meanwhile. |
| `Dispatch.ShutdownStrandsExactlyIf` | virtualsmartcard/win32/BixVReader/device.cpp:262-276 | From the moment a shutdown begins, with nobody entering any more, it can leave a request parked on the deleted reader exactly if a handler is inside then that may park: that of an IS_PRESENT which has not found a card, or of an IS_ABSENT which has found one or whose back end can still find one. |
| `Dispatch.OtherHandlersStrandNothing` | virtualsmartcard/win32/BixVReader/Reader.cpp:47-56 | Handlers of other IOCTLs, such as GET_STATE, leave nothing parked however many are inside, as they only complete. |
| `Dispatch.HandlerComesLate` | virtualsmartcard/win32/BixVReader/Reader.cpp:30-71 | From every state of a shutdown, whatever is waiting and however far the drains have come, a handler inside that may park can finish its check, see the drains to their end and park its request on the deleted reader. |
| `Dispatch.EnteringIsTooLateExactlyIf` | virtualsmartcard/win32/BixVReader/device.cpp:326-331 | A handler that passes the null test while the lists are being drained can leave its request on the deleted reader exactly if it is that of an IS_PRESENT, or of an IS_ABSENT whose back end can still find a card. |
| `Dispatch.DeletedReaderStrandsExactlyIf` | virtualsmartcard/win32/BixVReader/device.cpp:262-276 | Once the reader is deleted a request can be parked on it, now or later, exactly if one is already or some handler inside may still park. |
| `Dispatch.LateWaiterHappens` | virtualsmartcard/win32/BixVReader/VpcdReader.cpp:83-112 | Over every back end, an IS_ABSENT that found its card before the shutdown and comes between the two drains is parked on the deleted reader although nobody is inside any more. |
| `VpcdReader.EraseFirst` | virtualsmartcard/win32/BixVReader/device.cpp:380-400 | Takes the first occurrence off the list and keeps the order of the others. |
| `VpcdReader.Reader.DrainInsert` | virtualsmartcard/win32/BixVReader/VpcdReader.cpp:145-153 | The pop loop is the drain: it empties the list and completes each waiter once unless its cancellation is under way. |
| `VpcdReader.Reader.DrainRemove` | virtualsmartcard/win32/BixVReader/VpcdReader.cpp:86-93 | The pop loop on the other list. |
| `VpcdReader.Reader.SignalRemoval` | virtualsmartcard/win32/BixVReader/VpcdReader.cpp:114-139 | Without a card nothing happens; with one, those who wait for its removal get SUCCESS and those who wait for an insertion are cancelled. |
| `VpcdReader.Reader.QueryATR` | virtualsmartcard/win32/BixVReader/VpcdReader.cpp:53-71 | A failure to get an ATR is a removal; a long ATR is cut to the caller's buffer. |
| `VpcdReader.Reader.InitProtocols` | virtualsmartcard/win32/BixVReader/Reader.cpp:380-429 | A failed scan leaves no protocol available and is a removal; a successful one leaves what the TDi chain offers. |
| `VpcdReader.Reader.SignalInsertion` | virtualsmartcard/win32/BixVReader/VpcdReader.cpp:141-160 | Waiters are served only through a scan; if it fails, re-entering the removal cancels them. |
| `VpcdReader.Reader.CheckATR` | virtualsmartcard/win32/BixVReader/VpcdReader.cpp:36-41 | Presence of the card is turned into an insertion or a removal, and reported. |
| `VpcdReader.Reader.IoSmartCardIsPresent` | virtualsmartcard/win32/BixVReader/Reader.cpp:30-46 | The request is completed if the card is there and parked otherwise. |
| `VpcdReader.Reader.IoSmartCardIsAbsent` | virtualsmartcard/win32/BixVReader/Reader.cpp:58-71 | The request is completed if no card is there and parked otherwise. |
| `VpcdReader.Reader.IoSmartCardPower` | virtualsmartcard/win32/BixVReader/Reader.cpp:73-104 | Exactly one completion; the resets make the state negotiable, power down makes it swallowed, an unreadable ATR removes the card. |
| `VpcdReader.Reader.IoSmartCardSetProtocol` | virtualsmartcard/win32/BixVReader/Reader.cpp:106-160 | Exactly one completion, with the choice among requested and available protocols, or the state left negotiable. |
| `VpcdReader.Reader.IoSmartCardTransmit` | virtualsmartcard/win32/BixVReader/Reader.cpp:191-233 | Exactly one completion on every path; no answer from the card removes it. |
| `VpcdReader.Reader.RequestCancel` | virtualsmartcard/win32/BixVReader/device.cpp:374-404 | The request leaves whichever list has it and is completed as cancelled. |
| `VpcdReader.Reader.Shutdown` | virtualsmartcard/win32/BixVReader/VpcdReader.cpp:83-112 | Both lists are drained with CANCELLED. |
| `ReaderRuns.EventKeepsInv` | virtualsmartcard/win32/BixVReader/VpcdReader.cpp:36-160 | Every handler, card event, cancellation and shutdown keeps "no request waits for a card that is there" and one place for each request. |
| `ReaderRuns.NobodyWaitsForAPresentCard` | virtualsmartcard/win32/BixVReader/VpcdReader.cpp:114-160 | In every reachable state `cardPresent` implies that `waitInsertIpr` is empty, also when the scan inside an insertion fails and re-enters the removal. |
| `ReaderRuns.SuccessNeedsAScan` | virtualsmartcard/win32/BixVReader/VpcdReader.cpp:141-160 | A request waiting for a card gets SUCCESS only from an event that read and scanned the ATR successfully, and the result of that scan is in place. |
| `ReaderRuns.ScanServesTheWaiters` | virtualsmartcard/win32/BixVReader/VpcdReader.cpp:141-160 | And conversely: a card that arrives while requests wait for it completes each of them that is not being cancelled, with SUCCESS and the card swallowed if its ATR can be read, with CANCELLED and the reader absent if not. |
| `ReaderRuns.RemovalServesTheWaiters` | virtualsmartcard/win32/BixVReader/VpcdReader.cpp:114-139 | Whatever event notices the loss of a card completes each request that waits for it, and is not being cancelled, with SUCCESS. |
| `ReaderRuns.CardIsTracked` | virtualsmartcard/win32/BixVReader/VpcdReader.cpp:114-160 | The driver believes in a card exactly if it saw it at the last check, could read its ATR if somebody waited, and has not lost it since; losing it leaves the reader absent. |
| `ReaderRuns.HandlersAnswerTheirRequest` | virtualsmartcard/win32/BixVReader/Reader.cpp:30-160 | Every handler ends with its own request: IS_PRESENT and IS_ABSENT complete it with SUCCESS if what they ask for is so, and otherwise park it on the list of the event they wait for; the others complete it, with an error exactly if the card does not answer, nothing asked for is on offer, or a buffer is missing. |
| `ReaderRuns.StateFollows` | virtualsmartcard/win32/BixVReader/Reader.cpp:73-160 | The state that GET_STATE reports after each event that does not lose the card, and the power flag and protocol after power requests. |
| `ReaderRuns.ShutdownCancelsTheWaiters` | virtualsmartcard/win32/BixVReader/VpcdReader.cpp:83-112 | A shutdown completes each waiter that is not being cancelled with CANCELLED. |
| `Interleaving.HandlersAreRuns` | virtualsmartcard/win32/BixVReader/device.cpp:307-404 | Every handler, card event, cancellation and shutdown of the vpcd back end, taken as atomic, does to the requests what some run of the interleaved driver does: it enters, checks, completes waiters one locked block at a time, and answers or parks its own request. |
| `Interleaving.ShutdownIsARun` | virtualsmartcard/win32/BixVReader/VpcdReader.cpp:83-112 | Its shutdown is a run that drains both lists and deletes the reader. |
| `ReaderRuns.LastScanDecides` | virtualsmartcard/win32/BixVReader/Reader.cpp:380-429 | Over every run the available protocols are those of the last scan, and none if it failed; nothing else changes them. |
| `ReaderRuns.SetProtocolFollowsTheScan` | virtualsmartcard/win32/BixVReader/Reader.cpp:106-160 | In every run whose last scan succeeded, with a readable ATR, SET_PROTOCOL succeeds exactly if T=0 or T=1 is asked for and on offer in the ATR scanned; it selects one on offer, T=1 if that was requested; otherwise the state is negotiable. |
| `Device.Context.D0Entry` | virtualsmartcard/win32/BixVReader/device.cpp:170-219 | A fresh reader in each of the slots asked for, at least one. |
| `Device.Context.ShutdownReaders` | virtualsmartcard/win32/BixVReader/device.cpp:262-276 | Every reader below the count is deleted, its slot null, and the count 0. |
| `Device.Context.Lookup` | virtualsmartcard/win32/BixVReader/device.cpp:326-331 | Finds the reader that the instance number reaches, and null exactly if there is none. |
| `Device.EntryReachesExactly` | virtualsmartcard/win32/BixVReader/device.cpp:169-219 | After a D0Entry exactly the instances below the number of readers asked for, at least one, reach a reader, each its own and a new one. |
| `Device.EntryLosesExactlyWhatIsThere` | virtualsmartcard/win32/BixVReader/device.cpp:170-219 | D0Entry loses no reader exactly if all slots are null when it comes. |
| `Device.CallbacksLoseNoReader` | virtualsmartcard/win32/BixVReader/device.cpp:169-276 | Over every run of callbacks without two entries in a row no reader is lost and slots at or above the count are null. |
| `Device.EveryReaderIsDeletedOnce` | virtualsmartcard/win32/BixVReader/device.cpp:169-331 | From the first D0Entry on each reader created sits in one slot or was deleted once, slots at or above the count are null, and after a shutdown no instance number reaches a reader. |
| `InstanceNames.InstanceFromRequest` | virtualsmartcard/win32/BixVReader/device.cpp:283-305 | The backward loop finds all the digits at the end of the name; without any it means instance 0. |
| `InstanceNames.InstanceRoundTrip` | virtualsmartcard/win32/BixVReader/device.cpp:80-95 | The name made for instance n, with any prefix that does not end in a digit, is read back as n, or as the largest int if n is larger. |
| `InstanceNames.NoNumberIsTheFirst` | virtualsmartcard/win32/BixVReader/device.cpp:283-305 | A name that does not end in a digit means the first reader. |
| `Sharing.Library.SCardConnect` | virtualsmartcard/src/pcsclite-vpcd/winscard.c:278-299 | Refused if the slot is in use in exclusive mode or in another mode; otherwise one user more, and nothing else changes but the mode. |
| `Sharing.Library.SCardReconnect` | virtualsmartcard/src/pcsclite-vpcd/winscard.c:301-319 | Refused with other users in another mode; otherwise only the mode changes. |
| `Sharing.ToResult` | virtualsmartcard/src/pcsclite-vpcd/winscard.c:179-211 | Powering the card succeeds for the caller exactly if the handler reports success or a present card. |
| `Sharing.Library.SCardDisconnect` | virtualsmartcard/src/pcsclite-vpcd/winscard.c:321-369 | One user less exactly if there is one; the result depends on the disposition, on the users left, and on what powering the card gave. |
| `Sharing.Library.SCardBeginTransaction` | virtualsmartcard/src/pcsclite-vpcd/winscard.c:371-386 | Granted exactly to an only user, and makes the slot exclusive. |
| `Sharing.Library.SCardEndTransaction` | virtualsmartcard/src/pcsclite-vpcd/winscard.c:388-399 | Stores the disposition as the share mode. |
| `Sharing.Library.SCardReleaseContext` | virtualsmartcard/src/pcsclite-vpcd/winscard.c:251-262 | Releasing the last context, or one too many, zeroes all slots. |
| `Sharing.UsersAreConnections` | virtualsmartcard/src/pcsclite-vpcd/winscard.c:278-399 | Over every run, computed from the calls and their return codes alone: a slot's counter is the number of accepted connects less counted disconnects since the last context was released, and its mode is the one last granted. |
| `Sharing.GrantsFollowTheTrace` | virtualsmartcard/src/pcsclite-vpcd/winscard.c:278-399 | Over every run those codes determine the next one: a slot in use is granted exactly in the mode it was last granted, and not at all if that is exclusive; a reconnect may change the mode of a lone user only; a transaction begins exactly for a lone user; a disconnect is refused exactly without a connection and cannot dispose of a card others use. |
| `Sharing.NoReaderNoGrant` | virtualsmartcard/src/pcsclite-vpcd/winscard.c:109-122 | Reader indices and handles from 16 on are refused, the latter by their low 32 bits. |
| `Sharing.OneCallShares` | virtualsmartcard/src/pcsclite-vpcd/winscard.c:278-399 | A call keeps "a slot with two users is not exclusive" exactly if it does not end a transaction with RESET_CARD on a slot with several users. |
| `Sharing.ExclusiveMeansAloneExactlyIf` | virtualsmartcard/src/pcsclite-vpcd/winscard.c:278-399 | The same over every run. |
| `Sharing.CrowdedExclusiveHappens` | virtualsmartcard/src/pcsclite-vpcd/winscard.c:388-399 | Two shared users, one of whom ends a transaction with a reset, leave an exclusive slot with two users. |
| `StatusChange.GetStatusChange` | virtualsmartcard/src/pcsclite-vpcd/winscard.c:417-494 | Returns at the first poll with something to report, or when the time is up (61 polls for INFINITE, else one more than its whole seconds) or it is cancelled. Every examined reader then has each of its flags exactly as its slot was seen at the last poll: PRESENT or EMPTY by the card, INUSE by the users, EXCLUSIVE by the mode; success exactly if one is not recognised or its caller's flags differ from the card; on timeout all of them agree. |
| `StatusChange.Poll` | virtualsmartcard/src/pcsclite-vpcd/winscard.c:432-480 | Every reader that is looked at gets the flags of what it shows, the others keep theirs, and the count is positive exactly if one of them has changed. |
| `StatusChange.NoEventMeansAgreement` | virtualsmartcard/src/pcsclite-vpcd/winscard.c:462-479 | A recognised reader has no event exactly if it shows one of EMPTY and PRESENT and the caller's flags agree with it on both. |
| `ReaderNames.NameRoundTrip` | virtualsmartcard/src/pcsclite-vpcd/winscard.c:124-177 | The name of a reader is scanned back to its index. |
| `ReaderNames.ListedNamesLeadBack` | virtualsmartcard/src/pcsclite-vpcd/winscard.c:161-177 | What SCardListReaders lists can be walked by strlen, and `reader2card` maps each name back to the index it was listed at. |
| `ReaderNames.ListLength` | virtualsmartcard/src/pcsclite-vpcd/winscard.c:535-584 | The length of the multi-string of n readers: n names of 14 characters with their NULs and one more NUL. |
| `ReaderNames.ListReaders` | virtualsmartcard/src/pcsclite-vpcd/winscard.c:535-584 | A null buffer is told the length of the multi-string; a buffer of at least that size gets exactly the multi-string; a smaller one gets an error, or is overrun exactly if its size is 15 n, or less and 14 more than a multiple of 15. |
| `ReaderNames.ReachExactly` | virtualsmartcard/src/pcsclite-vpcd/winscard.c:535-584 | How far the code writes into a buffer of any size: to the end of the list, be that inside or not, or to the end of the last name that fits. |
| `ReaderNames.StaysInsideExactlyIf` | virtualsmartcard/src/pcsclite-vpcd/winscard.c:535-584 | So it stays inside exactly if the size is more than 15 n, or less and not 14 more than a multiple of 15: it asks for no room for the last NUL, and takes a name that was cut for a whole one. |
| `ReaderNames.NextName` | pcsc-relay/src/pcsc.c:113-136 | strlen + 1 at a name leads to the next one, and behind the last to the final NUL. |
| `ReaderNames.Walk` | pcsc-relay/src/pcsc.c:113-136 | The walk consumes exactly the multi-string and meets the names in index order: it finds the first reader with a card, or exactly the reader asked for. |
| `Ccid.ReplyRoundTrip` | ccid/src/ccid.c:349-410 | What the builders write the host reads back: type, sequence number, status, error and data, with slot 0 and a length that counts the data. |
| `Ccid.ReadableIsEncoded` | ccid/src/ccid.c:349-410 | And every reply with a right length and slot 0 is one the builders write. |
| `Ccid.StatusByte` | ccid/src/ccid.c:296-347 | The status reports a failure exactly if there was one and the reader could be asked, and an absent card exactly if none is seen; a card that is seen is inactive exactly if it has changed. |
| `Ccid.Reader.BStatus` | ccid/src/ccid.c:296-347 | The first eleven replies do not ask the reader; later ones do, and forget a card that is gone or was exchanged. |
| `Ccid.Reader.Respond` | ccid/src/ccid.c:349-410 | A reply the host can read with exactly the number and data given, or no reply and no change if there are more than 0xFFFF bytes of data. |
| `Ccid.Reader.GetRapdu` | ccid/src/ccid.c:221-274 | The command goes to the card exactly if it is an APDU of another class than 0xFF and a card is connected; the data are the response and both status bytes, or nothing. |
| `Ccid.Reader.IccPowerOn` | ccid/src/ccid.c:437-477 | The reply carries the ATR of the card, which stays connected unless the status check finds it gone. |
| `Ccid.Reader.XfrBlock` | ccid/src/ccid.c:617-659 | A message shorter than it declares is refused without effect; otherwise the command is the declared slice and the reply carries its outcome. |
| `Ccid.Reader.Unknown` | ccid/src/ccid.c:1554-1612 | Every complete message of another type gets an empty reply of the type CCID pairs with it, marked as failed in the status byte and not in the error byte. |
| `Ccid.Reader.GetParameters` | ccid/src/ccid.c:661-755 | Ten bytes with the status of the outcome, whose length field speaks of parameters that are cut off, and a length that was never set. |
| `Ccid.ParametersAreReadableExactlyByChance` | ccid/src/ccid.c:661-755 | The host can read those bytes as a reply exactly if no protocol is active and the length field, which is not set then, happens to be 0. |
| `Ccid.Reader.ParseBulkOut` | ccid/src/ccid.c:1614-1667 | A reply exactly if the message is complete and the data fit; except for GetParameters its length is 10 + dwLength, its slot 0, its number the request's; and what went to the card. |
| `Ccid.CardIsAnsweredForUpToTheLimit` | ccid/src/ccid.c:617-659 | An exchanged command is the declared slice, and the host gets the response followed by SW1 SW2 exactly if the response has at most 0xFFFD bytes. |
| `Ccid.OnlyApdusAreForwarded` | ccid/src/ccid.c:221-274 | An XfrBlock hands its slice to the card exactly if it is complete, has at least four bytes and the library takes it for an APDU, its class is not 0xFF, and a card is connected. |
| `Ccid.OthersForwardNothing` | ccid/src/ccid.c:1614-1667 | Of the other messages only a Secure that says what to do reaches the card. |
| `Ccid.XfrSucceedsExactlyIf` | ccid/src/ccid.c:221-274 | What the host is told about a complete XfrBlock, and that it is told of success exactly if an APDU met a card whose answer came with a status word of two bytes. |
| `Ccid.AnsweredExactlyIf` | ccid/src/ccid.c:1614-1667 | The messages that get a reply, type by type. |
| `Ccid.OutcomesReported` | ccid/src/ccid.c:1554-1667 | The outcome that messages other than XfrBlock are answered with. |
| `Ccid.PowerOnGivesTheAtr` | ccid/src/ccid.c:437-477 | IccPowerOn brings the ATR of the card that is or becomes connected, never as a failure; the card stays unless a reply that asks the reader finds it gone or exchanged. |
| `Ccid.CardIsForgottenExactlyIf` | ccid/src/ccid.c:166-219 | Any other message forgets the card exactly if its reply asks the reader and finds the card gone or exchanged. |
| `Ccid.RepliesMatchTheirRequests` | ccid/src/ccid.c:1614-1667 | Over every run the replies bear the numbers of the messages that get one, in order, and each has the type that the code's own table pairs with its request exactly if that is not IccPowerOn. |
| `Ccid.FailureIsReported` | ccid/src/ccid.c:276-347 | The failed bit is set exactly for a failure that could be checked against the reader; the error byte is set for every failure of a known message and for nothing else. |
| `Ccid.EarlyRepliesDenyTheCard` | ccid/src/ccid.c:296-308 | The first eleven replies of every run say that there is no card, whatever the reader sees. |
| `Ccid.LaterRepliesSeeTheCard` | ccid/src/ccid.c:296-347 | And every later one reports the card as the reader sees it while it is made. |
| `Ccid.NothingReachesAnUnpoweredCard` | ccid/src/ccid.c:221-259 | Over every run, whatever other messages it contains, nothing an XfrBlock carries reaches a card before one is powered on. |
| `Ccid.CardGetsEveryApdu` | ccid/src/ccid.c:617-659 | Over every run in which a connected card stays where it is, it gets every APDU that XfrBlock messages carry, in order, and nothing else from them. |
| `Ccid.Reader.BulkLoop` | ccid/src/usb.c:948-971 | The loop over the bulk endpoints carries on just the conversation of the runs above, writes each reply, hands the card what the runs say, and ends at the first message without an answer or when nothing comes. |
| `Pace.InputRoundTrip` | ccid/src/ccid.c:956-1032 | Parsing serialised PACE input followed by anything gives back its fields and what follows. |
| `Pace.AcceptedIsSerialized` | ccid/src/ccid.c:956-1032 | Input is accepted only if it begins with serialised fields. |
| `Pace.ParseBuffer` | ccid/src/ccid.c:956-1032 | The cursor never leaves the buffer and finds what the field-by-field reading finds, also the refusals. |
| `Pace.Print` | ccid/src/ccid.c:1040-1149 | The writer succeeds exactly if every field fits its own length field, and then has filled exactly the bytes allocated with the layout. |
| `Pace.OutputRoundTrip` | ccid/src/ccid.c:1040-1149 | Reading the layout back recovers the result, both status bytes and all four fields. |
| `Pace.LengthFieldCounts` | ccid/src/ccid.c:1040-1070 | The 16-bit length field equals the number of bytes behind it exactly if there are at most 0xFFFF. |
| `PinBlock.DataSize` | ccid/src/ccid.c:780-798 | The least number of bytes with room for the PIN at its offset, packed or not, and for the bits of its length. |
| `PinBlock.DigitsAndTheirValues` | ccid/src/ccid.c:840-866 | The characters that are encoded are the ten digits, each as its value. |
| `PinBlock.EncodeDigits` | ccid/src/ccid.c:840-882 | The binary loop: success exactly if the PIN fits and is all digits, whose values then stand contiguously with no other byte changed; "too long" exactly if all that fits are digits and more follow. |
| `PinBlock.EncodePin` | ccid/src/ccid.c:829-903 | In either encoding: success exactly if the PIN is all digits that fit, or the library builds it; then the encoded PIN stands where it should, and nothing outside the room given is changed on any path. |
| `PinBlock.WritePin` | ccid/src/ccid.c:906-937 | In either encoding the PIN stands at the left edge, or as far from the right edge as it is long, and nothing behind the block is changed; the code leaves the block exactly for a right-aligned PIN that is longer and, in binary, begins with a digit. |
| `PinBlock.VerificationBlock` | ccid/src/ccid.c:1392-1454 | A block sized for the PIN is never left and never reported too short for it; success exactly for at most 15 bytes, a PIN that can be encoded, and a length field of 0 or 8 bits; and then the block is the PIN at its edge with the length over its first byte. |
| `PinBlock.PinSurvivesItsLength` | ccid/src/ccid.c:800-827 | The card finds the PIN in the block exactly if no length was written over it, the PIN is empty, or its first digit equals its length. |
| `OpenPicc.LineRoundTrip` | pcsc-relay/src/opicc.c:79-128 | For every data the line "length in hex, colon, space and two hex digits for each byte" is decoded to just those data. |
| `OpenPicc.DecodeApdu` | pcsc-relay/src/opicc.c:79-128 | The decoder ends on every line, refuses values above 0xFF, and treats a line without length and colon as empty. |
| `OpenPicc.IgnoredLines` | pcsc-relay/src/opicc.c:87-104 | A line that is empty or has no colon right behind its number is taken for an empty APDU. |
| `OpenPicc.StrtoulSkipsSpace` | pcsc-relay/src/opicc.c:99-118 | The number reader skips the six white-space characters of C and no other. |
| `OpenPicc.StrtoulTakesSigns` | pcsc-relay/src/opicc.c:99-118 | It takes a sign, and wraps a negative number around to 64 bits. |
| `OpenPicc.StrtoulTakesPrefixes` | pcsc-relay/src/opicc.c:99-118 | And the prefix 0x in either case. |
| `OpenPicc.EncodeRapdu` | pcsc-relay/src/opicc.c:43-77 | Refuses more than 0xFFFF bytes; otherwise stays inside a buffer of the size reported, whose C string is the line, or only its header where the length is shorter than its columns. |
| `OpenPicc.EmittedIsTheLineExactlyIf` | pcsc-relay/src/opicc.c:43-128 | What is emitted is the line, and decodes to the data, exactly if there are no bytes or at least 0x1000. |
| `Padding.PadFillsBlocks` | virtualsmartcard/src/vpicc/virtualsmartcard/CryptoUtils.py:107-124 | The padded data are whole blocks and 1 to blocklen bytes longer: a byte 80 and zeros behind it. |
| `Padding.StripPadding` | virtualsmartcard/src/vpicc/virtualsmartcard/CryptoUtils.py:127-141 | Cuts at the last 0x80, and without one runs out of indices, negative ones included. |
| `Padding.PaddingRoundTrip` | virtualsmartcard/src/vpicc/virtualsmartcard/CryptoUtils.py:107-141 | Whatever was padded is recovered. |
| `Padding.PadIsInjective` | virtualsmartcard/src/vpicc/virtualsmartcard/CryptoUtils.py:107-124 | Different data are padded differently. |
| `Padding.StripUndoesExactlyWellPadded` | virtualsmartcard/src/vpicc/virtualsmartcard/CryptoUtils.py:107-141 | Padding what was stripped gives the input back exactly if it was whole blocks with fewer than a block of zeros behind the last marker; stripping does not check that. |

## Left out

- Vpcd.ViccCtx.Connect: server mode only, whether a client came in time and was accepted is the parameter `ready`; `connectsock` of client mode can hand back a socket it has closed.
- Vpcd.ViccCtx.Transmit: the lock is a mutex held from send to receive, so that eject and connect do not come in between; `lock.c` and the NULL context are not modelled.
- Vpcd.ViccCtx.RecvAll: a read with MSG_WAITALL delivers all bytes or fails for good; an interrupted read that returns a part is not modelled.
- Vpcd.ViccCtx.Send: always takes at least one byte of non-empty data, or fails.
- Relay.MainLoop.Turn: one pass of the loop; reconnecting, which repeats until it succeeds, is a parameter, and the contexts that it abandons are not followed.
- Runs.EveryAnswerIsItsOwn: for cards whose ATR and R-APDUs are not empty and fit a frame.
- Recovery.RelayIsRightExactlyWhenAlwaysClean: for such cards too; the socket of a connection that the relay gave up on stays open unread, and the reader on it is not followed any further.
- Refinement.TransmitReturnsItsOwnAnswer: one call of Transmit, from begin to return; the relay's calls are related to the machine by their contracts only, clause by clause.
- Recovery.StaleAnswerIsDelivered: the old buffer's bytes are arbitrary, as a failed receive may have overwritten part of them.
- AtrScan.Scan: the ATR as far as it fits the buffer of 100 bytes; counts of historical bytes are computed by the code and not used.
- VpcdReader.Reader.QueryATR: the `vicc_reset` sent after reading the ATR is not part of the state.
- VpcdReader.Reader.IoSmartCardTransmit: whether the input buffer is there and names the protocol in use is the parameter `accepted`, and whether the output buffer is there `outOk`.
- ReaderRuns.NobodyWaitsForAPresentCard: handlers are atomic steps; `CheckATR` runs outside the lock, so across threads a request can be parked after the card event it waits for.
- ReaderRuns.SetProtocolFollowsTheScan: a scan happens only when a card arrives while somebody waits for it, so the last scan may be of an earlier card.
- Dispatch.ShutdownStrandsExactlyIf: that nobody enters any more is the framework's part; `Dispatch.EnteringIsTooLateExactlyIf` is what happens otherwise. What `CheckATR` finds is nondeterministic; whether it can still find a card once the lists are being drained is the parameter `outlives`, false for the vpcd back end, whose connection is closed by then.
- Dispatch.EveryRequestHasOnePlace: a locked block and the emptiness test before it are one step; parking makes the request known to the cancel callback. The event loops of `TcpIpReader.cpp` and `PipeReader.cpp` appear through their drain blocks only, not their sockets and pipes.
- Device.Context.Lookup: from the first D0Entry on; before it `NumInstances` is positive while the table is empty.
- Device.Context.ShutdownReaders: from the first D0Entry on, as above; the threads of the readers are not modelled.
- InstanceNames.InstanceFromRequest: the file name is followed by a character that is no digit, as `_wtoi` reads until one.
- Sharing.Library.SCardConnect: the index that the reader's name gives is a parameter, see `ReaderNames.NameRoundTrip`; counters do not overflow.
- StatusChange.GetStatusChange: what the readers show at each poll and whether `SCardCancel` has been called are parameters, the ATR copied out is left out.
- ReaderNames.NameRoundTrip: at most 100 readers; `%02u` of three digits is not modelled.
- ReaderNames.ListReaders: at most 100 readers and no AUTOALLOCATE; where the code overruns the buffer the model stops.
- ReaderNames.Walk: lists as `SCardListReaders` writes them, and no card behind the empty name at their end.
- Ccid.Reader.ParseBulkOut: the empty message stands for a null pointer; PC_to_RDR_Secure's outcome, data and commands are parameters; lengths do not wrap around in `size_t`.
- Ccid.Reader.BulkLoop: `read` and `write` do not fail; of a reply to GetParameters only the ten bytes are followed, not how many are written.
- Ccid.Reader.GetParameters: the parameters themselves, which are written before the buffer is cut, and in part not into it, are left out.
- Ccid.Reader.IccPowerOn: given that the card can be connected, as the code uses the card before it looks at the result.
- Ccid.Reader.GetRapdu: pseudo APDUs of class 0xFF are answered by a parameter, and `sc_bytes2apdu` and the transmission to the card are parameters.
- Ccid.StatusByte: the values are those of CCID Rev 1.1, section 6.2.6; the header of OpenSC that names them is not part of this model.
- Pace.OutputRoundTrip: the result code as an unsigned 32-bit number.
- PinBlock.EncodePin: what the library puts into its room for an ASCII PIN is a parameter; `encoding` is bit 1 of bmFormatString, so the branch for BCD is never taken.
- PinBlock.WritePin: where the code leaves the block the model stops; the library is taken to write into the room it is given there.
- PinBlock.VerificationBlock: the block the host supplies, an offset of the PIN, the modification of a PIN and the transmission afterwards are left out.
- OpenPicc.LineRoundTrip: for lengths that fit an `unsigned long` of 64 bits.
- OpenPicc.DecodeApdu: bytes that the line is too short for are not written by the code; they are missing from the first component of the result and counted in the second.
- Padding.PadFillsBlocks: block length 0, a division by zero in the source, is left out, and so are other padding classes.
- GetAttribute and SetAttribute, pseudo APDUs, control requests and slot change notifications of the CCID gadget: tables and single completions.
- `ifd-vpcd.c` and `vpcd-driver.c`: thin wrappers around the library.
- Out-of-memory paths, logging, ciphers and message authentication codes.
- `usb.c` apart from its bulk loop, `usbstring.c`, the vpicc card emulation apart from padding, user interfaces and configuration.
