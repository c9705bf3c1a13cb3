# Verified model of the car alarm firmware

The firmware keeps its data in small in-place structures and moves it with stop-and-wait protocols that must
survive reboots, lost packets and interleaved tasks. This project models those parts as they are written (the same
branches, constants, integer widths and quirks) and proves what they keep over every run.

| Files | Part of the firmware |
|---|---|
| `TracerBuffer`, `TracerRecovery`, `TracerRuns`, `TracerProtocol`, `TracerComm` | the 32768-slot GPS ring in flash, the two bisections that rebuild its indices at boot, its runs with crashes, the delivery protocol, and the tracer task that follows it |
| `EventList`, `EventBuffer`, `EventBatch`, `EventComm`, `EventFifo`, `EventMemory` | the linked event buffer as a sequence, its in-place code, the SMS batching over it as runs and as program, the primary event ring, and the event log in flash |
| `Update` | the over-the-air chunk protocol between the receive task and the sender |
| `Ihex`, `IhexRoundTrip`, `IhexStream` | the Intel HEX parser that decodes in place, the printer, and the character framing |
| `Checksums`, `CrcGap`, `Layout`, `AppCrcTool`, `ContainerTool`, `Bootloader`, `ImageChain`, `ImageTools` | CRC-32 and chsum32, the CRC register as a field, the image layout, the two build tools, the bootloader, the way of an image through all of them, and the programs run one after the other |
| `SiaCrc`, `SiaFrame`, `SiaProto` | the CRC-16 and the frame of the SIA-DC-09 codec, its answers and its protocol object |
| `AlarmParts`, `AlarmRuns`, `AlarmEnds`, `AlarmDisarm`, `AlarmCounts`, `AlarmInPlace` | the alarm, section and inputs of the car, their handlers interleaved over whole runs, how long an alarm lasts, what a disarm leaves, how many alarm events an input can make, and the code in place |
| `MultiSms`, `AesModes` | reassembly of long messages, the AES chaining modes |

Code that changes state is modelled by classes and array methods whose contracts equate the new state with a
function of the old one; the theorems are about those functions and about runs built from them.

## What the code does not do

Where the code falls short of what one would expect of it, the model follows the code, a lemma gives a concrete run, and the
exact condition is proved:

- Boot recovery of the GPS ring compares records half a ring apart and takes equal tracks for newer
  (`app/tracer/tracer_buffer.c:60`), and it never looks at the delivered flag of slot 0. The write index is found exactly when
  the probed stale slots look older (`TracerRecovery.RecoveryExact`), one track around the whole ring defeats it
  (`OneTrackMisleads`), and a reboot passes over undelivered records exactly when the newest record is in slot 0
  (`TracerRuns.RebootExact`, `UnsafeRebootSkips`; `FirstRecordLost` from an erased ring).
- The ring has no overflow check (`app/tracer/tracer_buffer.c:191-193`): a store makes it look empty exactly when 32767 records
  are unread, and the next one is written over the oldest of them (`TracerRuns.OverfullExact`, `NextStoreOverwrites`).
- The tracer clears the acknowledge and sends in two statements (`app/tracer/tracer.c:574-575`). A reply to an earlier packet that
  comes between them flags the new record, whether or not its packet arrives (`TracerProtocol.LateReplyFlagsNext`); a transmission
  can flag its record unanswered exactly after such a reply (`EarlyExact`).
- Reinitialising the tracer may flag a record that was never transmitted (`TracerProtocol.ReinitFlagsUnsent`, `ReinitRun`).
- `_buf_replace_prio` gives up the oldest item, of whatever priority, when the lowest stored priority equals the new one
  (`EventList.VictimExact`, `HighPriorityEvicted`).
- The events of a refused SMS stay in processing, since nothing in the firmware restores them (`app/event.c:295-296`). The next accepted
  SMS, to whatever user, deletes them unsent (`EventBatch.RefusedThenLost`); an event not in the message goes exactly when it was
  in processing at the start of the round (`SendExact`).
- The overflow test of `event_create_ext` never fires; with 31 events unread the 32nd loses all of them (`EventFifo.Fifo.Create`).
- The event log forgets its newest event at boot exactly when that event is in the final slot (`EventMemory.RecoveryExact`).
- `update_packet_rx` tests the phase, writes and acknowledges in three steps (`app/update.c:155-179`), and takes an answer to the request
  in any phase. A chunk answered twice, or a late answer to the request, acknowledges a chunk that was never written
  (`Update.DuplicateLosesChunk`, `LateAnswerLosesChunk`). That makes an incomplete image flashed possible exactly when the sender then
  waits for an unwritten chunk other than the last (`HarmExact`), and it never happens when no answer passes the tests twice or late
  (`OnceIsHarmless`).
- A handler past its last test of the section state makes its alarm event even if the whole disarm is carried out in between
  (`AlarmDisarm.AlarmAfterDisarm`); a disarm is final exactly when there is no such handler (`DisarmExact`). The siren, silenced by the
  disarm, can sound again before the next arming exactly when such a handler, or an alarm event still queued, was left (`LateEventSounds`).
- The count that should hold an input at three alarm events (`app/system_input.c:58-72`) is taken back by every reset of the inputs, while
  what is already on its way still becomes an event. From a state of the armed system an input can make more than three further events
  before the next command exactly when more is on its way than it has counted (`AlarmCounts.FourExact`, `CountExact`). A handler
  that a disarm did not stop leads there (`FourthAlarm`), and so does `system_set`, which writes the state before it resets the
  inputs (`app/system.c:153-155`): three events before the reset and three after it, without any alarm_stop (`SixAlarms`). After that
  reset there can be more than three exactly when the input had made an event or had one under way (`ArmedExact`).
- A gap in front of the first application record is counted in the size but left out of the CRC (`ut/app_crc/main.c:78-99`); the stored CRC
  is right exactly when there is no such gap (`AppCrcTool.LateStartExact`).
- Without an end record the second pass of `app_crc` starts from the base address the first one left; it reads the same records exactly
  when that base is zero or no data record stands before the first base record (`ImageChain.ReadsTwiceExact`).
- Three address tests add in 32 bits. `ext_storage_write_data` lets 16 bytes at 0xFFFFFFF8 through (`Bootloader.EndWraps`, and from the
  terminal `ImageChain.WrappingLineTyped`), and what it lets through is inside the window exactly when the end does not wrap
  (`PassesExact`). `_compute_crc` writes such a record behind its page (`AppCrcTool.InfoWraps`, `InfoExact`). `_load_bin`
  also takes the 512 bytes behind its array (`ContainerTool.RunsOver`, `AddressedExact`).
- The CRC of the application leaves out the info page behind its first eight bytes, so a wrong byte there goes unnoticed
  (`ImageChain.FlippedAppExact`).
- A source name with a `^` in it cannot be told from the fields around it in a SIA frame (`SiaProto.FieldsReadExact`).
- `ms_get` returns a length larger than its text exactly when a part was stored twice (`MultiSms.GetLengthExact`).

## Model

| member | source | states |
|---|---|---|
| `TracerBuffer.ComputeChecksum` | app/tracer/tracer_buffer.c:144-154 | the loop over the 31 bytes in front of the checksum computes the specified sum of (byte xor counter) + version |
| `TracerBuffer.BytesAt` | app/tracer/tracer_buffer.h:11-18 | in the packed record every field stands at its offset, numbers low byte first |
| `TracerBuffer.ErasedIsInvalid` | app/tracer/tracer_buffer.c:166-176 | an erased slot never loads as a record, so erased flash reads as empty |
| `TracerBuffer.TracerBuf.FindNewest` | app/tracer/tracer_buffer.c:47-73 | the first bisection loop, from its u16 step and pointer, ends at the slot, track, info and last waiting probe of the recursive bisection |
| `TracerBuffer.TracerBuf.FindOldest` | app/tracer/tracer_buffer.c:75-97 | the second loop, with its modular pointer and mask, ends at the slot of the recursive bisection on the delivered flag |
| `TracerBuffer.TracerBuf.Init` | app/tracer/tracer_buffer.c:29-114 | boot leaves exactly the recovered indices, track and info, for every flash content and whatever the RAM held |
| `TracerBuffer.TracerBuf.HardErase` | app/tracer/tracer_buffer.c:116-142 | after the erase loop no slot loads and all indices are 0 |
| `TracerBuffer.TracerBuf.StorePosition` | app/tracer/tracer_buffer.c:178-196 | the record stands in the slot of the write index with a valid checksum, the index steps around the ring, nothing else changes |
| `TracerBuffer.TracerBuf.ReadNextRecord` | app/tracer/tracer_buffer.c:198-226 | hands out the record at the read index and steps, or nothing when it meets the write index or an unreadable slot |
| `TracerBuffer.ReadNextExact` | app/tracer/tracer_buffer.c:198-226 | a read yields the record of the read index and steps it around the ring, or stops there exactly when everything is read or the slot does not load |
| `TracerBuffer.TracerBuf.DeliveredAll` | app/tracer/tracer_buffer.c:228-248 | flags every loadable record from the first undelivered one to the read index, around the ring, and nothing else |
| `TracerRecovery.NewestExact` | app/tracer/tracer_buffer.c:47-73 | from any stage the first bisection ends at the newest record if and only if every stale slot it still probes looks older |
| `TracerRecovery.OldestExact` | app/tracer/tracer_buffer.c:75-97 | from any stage the second bisection ends at the oldest of the k waiting records behind the newest |
| `TracerRecovery.RecoveryExact` | app/tracer/tracer_buffer.c:29-114 | the write index, track and info are recovered, and the read index is k slots behind it, each exactly under its condition (probes told apart; newest not in slot 0 or nothing waiting) |
| `TracerRecovery.OlderLapTells` | app/tracer/tracer_buffer.c:57-66 | slots above the newest that are empty or of an older track than slot 0 suffice for the recovery |
| `TracerRecovery.OneTrackMisleads` | app/tracer/tracer_buffer.c:60 | a full ring of one track always recovers to write index 0, wherever the newest record is |
| `TracerRuns.ReadReturns` | app/tracer/tracer_buffer.c:198-226 | in every reachable state a read returns the next record of the history in time order, or nothing when all were read |
| `TracerRuns.RebootExact` | app/tracer/tracer_buffer.c:29-114 | in every reachable state a reboot restores the write index and the track, and the info if and only if the newest record is not in slot 0 or has info 0; reading resumes at the first unflagged record if and only if the newest record is not in slot 0 or nothing is unflagged; an erased ring gives indices, track and info 0 |
| `TracerRuns.UnsafeRebootSkips` | app/tracer/tracer_buffer.c:47-73 | after the other reboots the ring looks empty although records are undelivered |
| `TracerRuns.FirstRecordLost` | app/tracer/tracer_buffer.c:29-114 | from an erased ring one store is enough for an unsafe reboot, after which the record is never read |
| `TracerRuns.CrashSafety` | app/tracer/tracer_buffer.c:178-248 | over every run of stores, reads, single marking steps and safe reboots the DELIVERED records are a time-order prefix, each was handed out, and reading never stands beyond an unread record |
| `TracerRuns.DrainHandsOutAll` | app/tracer/tracer_buffer.c:198-226 | from every reachable state reading on hands out every record of the history that was not handed out before (at least once) |
| `TracerRuns.OverfullExact` | app/tracer/tracer_buffer.c:191-226 | in every reachable state a store makes the ring look empty, and the next read return nothing, if and only if 32767 records are unread |
| `TracerRuns.NextStoreOverwrites` | app/tracer/tracer_buffer.c:178-196 | the store after that one is written over the oldest unread record, and over an unread record in no other case |
| `TracerRuns.Filled` | app/tracer/tracer_buffer.c:178-196 | such a moment is reached from an erased ring by stores alone, of two tracks |
| `TracerProtocol.Delivery` | app/tracer/tracer.c:502-629 | in every run without reinit, with points stored and replies arriving between any two steps, exactly one record lies between flagged and read while a packet is pending and none otherwise; a flagged record was answered after its transmission, unless a reply was accepted between clearing the acknowledge and that transmission; without such replies the exception is empty |
| `TracerProtocol.EarlyExact` | app/tracer/tracer.c:574-583 | with the acknowledge cleared and the packet not yet sent, its transmission can flag the record without an answer to it if and only if a reply was accepted since the clear |
| `TracerProtocol.LateReplyFlagsNext` | app/tracer/tracer.c:465-583 | a run from an erased ring: a record sent twice is answered twice, the second answer comes between clear and transmission of the next record, which is flagged and never answered |
| `TracerProtocol.AckFlags` | app/tracer/tracer.c:465-500 | an acknowledge flags the one transmitted record and nothing else, if and only if no packet was dropped since the last marking |
| `TracerProtocol.AcknowledgeAndMark` | app/tracer/tracer.c:465-629 | from every pending packet there is a run that transmits, takes the reply and flags one more record |
| `TracerProtocol.MarkKeepsFlag` | app/tracer/tracer_buffer.c:228-248 | the marking loop never clears a DELIVERED flag |
| `TracerProtocol.ReinitFlagsUnsent` | app/tracer/tracer.c:271-297 | from every state with a pending packet never sent, and a record unread, a run with reinit flags the record of that packet |
| `TracerProtocol.ReinitRun` | app/tracer/tracer.c:271-297 | such a run from an erased ring and two stored points |
| `TracerComm.Comm.WaitForAck` | app/tracer/tracer.c:465-500 | the poll ends with an acknowledge if and only if one was there before its first turn or an accepted reply arrived in one of its turns, whatever the port and content of the others |
| `TracerComm.Comm.PacketRx` | app/tracer/tracer.c:694-703 | a datagram sets the acknowledge exactly when port and reply fit |
| `TracerComm.Comm.NewPoint` | app/tracer/tracer.c:655-692 | a point stored while a packet is on its way is a step of the same run and leaves packet and acknowledge alone |
| `TracerComm.Comm.Transmit` | app/tracer/tracer.c:574-575 | after clear and transmission the acknowledge is set if and only if an accepted reply came between the two |
| `TracerComm.Comm.CommProcess` | app/tracer/tracer.c:502-629 | one call sends a pending packet and flags its record and no other when a reply was accepted since the clear; the record is then answered if no reply came before the transmission, and otherwise only by a reply in the first turn; without a reply it keeps the packet; with nothing pending it prepares the next unread record; it counts the retries since the last success up to five; every call is a run of the protocol |
| `EventBuffer.EventBuf.constructor` | app/event_buf.c:10-25 | from any items in range the buffer is valid and empty |
| `EventBuffer.EventBuf.FindFree` | app/event_buf.c:27-40 | returns an unused slot, and NIL only when every slot is linked |
| `EventBuffer.EventBuf.ReplacePrio` | app/event_buf.c:51-95 | the two scans over the links pick the place the specification calls the victim, or NIL |
| `EventBuffer.EventBuf.DeleteItem` | app/event_buf.c:97-135 | takes exactly the given slot out of the order and its entry out of the contents; the freed slot keeps its stale next link |
| `EventBuffer.EventBuf.IsEmpty` | app/event_buf.c:137-154 | true exactly when no entry waits |
| `EventBuffer.EventBuf.AddEvent` | app/event_buf.c:156-212 | the new entry goes behind the others, a full buffer losing the victim first; a refused add changes nothing |
| `EventBuffer.EventBuf.GetEvent` | app/event_buf.c:289-323 | hands out the oldest waiting entry of the user (or of any user) and marks it as processing, changing nothing else |
| `EventBuffer.EventBuf.Tour` | app/event_buf.c:214-287 | one traversal treats every original entry once and in order, although it goes on through the next link of slots it has just freed |
| `EventBuffer.EventBuf.DoneEvents` | app/event_buf.c:253-287 | the contents become the sweep that removes (delivered) or retires (not delivered) the processing entries |
| `EventBuffer.EventBuf.RestoreEvents` | app/event_buf.c:214-251 | the contents become the restoring sweep, and the answer is false exactly when something was discarded |
| `EventBuffer.EventBuf.ForEach` | app/event_buf.c:325-350 | exactly the entries the callback rejects are erased |
| `EventList.AddRefused` | app/event_buf.c:156-176 | an add fails if and only if there is no event, no user, or the buffer is full of strictly higher priorities |
| `EventList.AddedEnds` | app/event_buf.c:156-212 | an accepted event stands last, for its user at its priority, waiting and never tried, behind the whole old list or, in a full buffer, behind all of it but the victim |
| `EventList.VictimExact` | app/event_buf.c:51-95 | the victim is the oldest of the lowest stored priority if and only if that priority is below the new one or the oldest item has it; with equal priority it is the oldest item of all |
| `EventList.HighPriorityEvicted` | app/event_buf.c:76-80 | a low-priority event throws out a stored high-priority one |
| `EventList.SweepOrdered` | app/event_buf.c:214-287 | the survivors of a pass are the images of the kept entries, in the old order, none missing |
| `EventList.DoneDelivered` | app/event_buf.c:253-287 | done(true) removes exactly the processing entries and leaves the others unchanged, in order |
| `EventList.DoneFailed` | app/event_buf.c:272-276 | done(false) deletes nothing and turns exactly the processing entries into zombies |
| `EventList.Restored` | app/event_buf.c:214-251 | restore removes exactly the handed-out entries whose incremented count meets the limit; the rest wait again, in order, changed only in marks and count |
| `EventList.Kept` | app/event_buf.c:325-350 | a for_each leaves exactly the entries the callback accepts, unchanged and in order |
| `EventBatch.Batch` | app/event.c:269-300 | any number of rounds of event_comm_task from any buffer, with adds between any two steps: each message holds events of one user in insertion order, a round gives up only when nothing waits for that user, and an event lost was in processing from the start or in a message refused before |
| `EventBatch.TextsAreAdded` | app/event.c:269-300 | over any run, whatever is stored for a user and whatever a message to it says was stored for that user or in the message at the start, or was added for that user, with that text and under that number |
| `EventBatch.SendExact` | app/event.c:295-296 | an accepted send removes exactly the events of its message and those in processing since the round began: an event not in the message goes if and only if it was in processing then |
| `EventBatch.RefusedThenLost` | app/event.c:287-296 | a run: the message to one user is refused, the next accepted message goes to another, and the first event is gone unsent |
| `EventBatch.NothingRefused` | app/event.c:295-296 | without a refused send no further event joins those that may be lost |
| `EventComm.SmsTask.CommTask` | app/event.c:269-300 | each call of the task over the linked buffer, with events added during its delay, makes a whole round: a message exactly when something waits, beginning with the oldest waiting event; every event in it is, text and all, one that was stored at the start of the call or was added during the delay; nothing is left waiting for its user; and after an accepted send nothing is in processing |
| `EventComm.SmsTask.RoundsKeep` | app/event.c:269-300 | after any number of calls on any buffer the events of the last message stand in insertion order, each with the text it was stored or added with for the user of the message, and what was lost had been refused before; without a refusal it had been in processing from the start |
| `EventComm.TakenWaitsLess` | app/event.c:287-291 | every event handed out leaves one fewer waiting, so the collection ends |
| `EventFifo.Fifo.Create` | app/event.c:133-162 | the event joins the unread ones under the next counter value, except that the 32nd unread event loses them all |
| `EventFifo.Fifo.Take` | app/event.c:169-243 | one turn takes the oldest unread event |
| `EventMemory.EventMem.Init` | app/event_memory.c:35-69 | the scan loop leaves the pointer and counter of the specified scan |
| `EventMemory.EventMem.Store` | app/event_memory.c:71-80 | writes the slot of the pointer and steps around the ring |
| `EventMemory.EventMem.Read` | app/event_memory.c:82-102 | walks back and returns the specified event or nothing |
| `EventMemory.BootStops` | app/event_memory.c:35-69 | whatever the memory holds, boot takes the first slot but the last with a time, id or source out of range for the next one to write, and counts on from no less than the counters in front of it |
| `EventMemory.RecoveryExact` | app/event_memory.c:35-69 | for every log of valid events with increasing counters boot restores pointer and counter exactly unless the newest event is in the final slot; then the log goes on without that event |
| `EventMemory.RunIsLog` | app/event_memory.c:35-80 | over every run of stores and reboots the device is the log that the runs of that rule describe |
| `EventMemory.ErasedIsEmptyLog` | app/event_memory.c:35-69 | erased memory is the empty log, so every run may start there |
| `EventMemory.ReadExact` | app/event_memory.c:82-102 | read(k) is the (k+1)-th newest event for every k below the number of events and slots - 1, and nothing beyond |
| `Update.Updater.PacketRx` | app/update.c:113-181 | the receive task, when nothing interrupts it, changes acknowledge, request, flash and flashing exactly as the packet and the current phase say |
| `Update.RxAlone` | app/update.c:113-181 | that is what its steps (tests, write, end of the update, acknowledge) amount to when nothing happens between them |
| `Update.TakenExact` | app/update.c:113-181 | a packet is taken if and only if an update runs, port and unit fit, and it is an answer to the request, long enough or not in phase 0, or a whole chunk answer for the current chunk with one of the two statuses; any other packet changes nothing |
| `Update.AnswerDecides` | app/update.c:131-145 | from a started update in phase 0, over every run in which an answer to the request arrives and its handler ends while the sender goes on, the update goes on if and only if the answer says 0xFF and the sender does not give up meanwhile |
| `Update.AnswerHandled` | app/update.c:131-180 | there is such a run; uninterrupted, the handler acknowledges every such answer and keeps the update if and only if it says 0xFF |
| `Update.NoneWithoutRequest` | app/update.c:224-284 | without an update no run up to the next start sends a packet or begins to wait for an answer |
| `Update.RefusedAsksNothing` | app/update.c:131-145 | after any other answer nothing is asked for in any run up to the next start |
| `Update.Updater.WriteChunk` | app/update.c:105-111 | a chunk lands at its offset and nowhere else |
| `Update.Updater.Start` | app/update.c:183-222 | a start resets the protocol state as specified, or refuses |
| `Update.Updater.BeginSend` | app/update.c:224-284 | the sender clears the acknowledge before each transmission, also of a packet net_udp_tx then refuses, and counts its failures, but not those of net_connect |
| `Update.Updater.Poll` | app/update.c:37-58 | the poll takes an acknowledge exactly when one is there |
| `Update.GivesUpExact` | app/update.c:224-284 | a hundred failed turns are borne and the next turn gives the update up, a turn without a network connection failing nothing; those before the request is answered count together with those for the first chunk, a fetched chunk starts the count anew, and so does a start |
| `Update.TakenChunkIsCurrent` | app/update.c:146-175 | a chunk answer that is taken is the one for the current phase, whatever the u32 arithmetic, and the last one exactly when it says so |
| `Update.GoKeeps` | app/update.c:113-181 | lost, repeated, reordered and late genuine answers keep the image written up to the phase unless an acknowledge is harmful, and main_flash is called only with the whole image in place |
| `Update.UpdateSafety` | app/update.c:37-284 | over every interleaving of both tasks and the network, the receive task stopped between test, write and acknowledge included, flashing finds the image of the server byte for byte as long as no acknowledge meets a sender that waits for an unwritten chunk other than the last |
| `Update.HarmExact` | app/update.c:155-179 | from every safe state with an acknowledge about to be set, some run in which no other is harmful flashes an incomplete image if and only if this one is |
| `Update.HarmLoses` | app/update.c:155-279 | from every state with a harmful acknowledge, a run in which each later chunk is answered once, and nothing else arrives, that flashes with the awaited chunk missing |
| `Update.HarmComesLate` | app/update.c:131-179 | a harmful acknowledge comes from an answer to the request or from a chunk handler whose tests saw another phase than the one now waited in |
| `Update.OnceIsHarmless` | app/update.c:113-284 | when in each phase of an update at most one answer passes the tests, none to the request late, and an update is started anew only with no handler under way (an acknowledge still noted counting as the answer to the new request), no acknowledge of the run is harmful |
| `Update.DuplicateLosesChunk` | app/update.c:155-279 | for every image and every chunk but the last two, a run from a fresh unit in which the request and every other chunk is answered once, that chunk twice and the next one never, and which flashes with the next one missing |
| `Update.FreshUnitIsSafe` | app/update.c:113-181 | the unit at boot is in a state the runs may start from, whatever its flash holds |
| `Update.LateAnswerExact` | app/update.c:131-145 | a late answer to the request, acknowledged at once, can be followed by a run that flashes an incomplete image if and only if the sender waits for an unwritten chunk other than the last |
| `Update.LateAnswerLosesChunk` | app/update.c:131-181 | for every image and every chunk but the last, such a run from a fresh unit: the request is answered once in time and once more while that chunk is awaited, every other chunk once, and that chunk, never answered, is missing |
| `Ihex.Parser.ReadByte` | ut/common/ihex.c:75-99 | two digits give the byte and are passed over; a character that is no digit gives 0 and is not |
| `Ihex.Parser.DecodeOver` | ut/common/ihex.c:129-136 | the data bytes are written over the text they come from without ever changing what is still to be read, for every line, well-formed or not |
| `Ihex.Parser.ParseLine` | ut/common/ihex.c:101-182 | for every buffer with a terminating NUL the in-place parser does what the line means: u8 length, checksum, base address, record type |
| `Ihex.DecodeOfHex` | ut/common/ihex.c:75-99 | printed hexadecimal bytes are read back one by one |
| `IhexRoundTrip.Printer.UpdateAddr` | ut/common/ihex.c:8-22 | prints a base record exactly when the upper half of the address changes |
| `IhexRoundTrip.Printer.LineText` | ut/common/ihex.c:53-69 | the loop prints length, address, type, data and the checksum of the line |
| `IhexRoundTrip.Printer.Flush` | ut/common/ihex.c:35-73 | the chunking loop prints exactly the lines of the data, base records included |
| `IhexRoundTrip.DataLineParses` | ut/common/ihex.c:101-155 | a printed data line is read back with its data at its offset from the current base, by both parsers |
| `IhexRoundTrip.BaseLineParses` | ut/common/ihex.c:171-176 | a printed base record sets the parser's base |
| `IhexRoundTrip.LineMeans` | ut/common/ihex.c:138-182 | a well-formed line of bytes is refused with a wrong sum, and otherwise is data at its offset from the base, the end, a segment or an upper half for the base, or an entry point that only the tools accept; every other type is refused |
| `IhexRoundTrip.DamagedLineRefused` | ut/common/ihex.c:101-182 | an accepted line with one byte other than its length changed is refused |
| `IhexRoundTrip.ExampleLine` | ut/common/ihex.c:53-69 | one data line character by character |
| `IhexRoundTrip.RoundTrip` | ut/common/ihex.c:8-182 | for every sequence of flushes, across 64 KiB and 4 GiB boundaries, every printed line is accepted, the same data arrives in the same order, and the parser's base stays the printer's |
| `IhexRoundTrip.ReadAgainExact` | ut/common/ihex.c:101-182 | reading lines again from another base address gives the same records if and only if the base is zero or no data record stands before the first that sets it |
| `IhexRoundTrip.ChunksRejoin` | ut/common/ihex.c:46-72 | the chunks delivered are non-empty, at most 16 bytes, consecutive, and join to the data |
| `IhexStream.LineFeed.Feed` | ut/app_crc/main.c:108-145 | one character does to the line buffer what the framing says |
| `IhexStream.BetweenLines` | ut/app_crc/main.c:108-145 | between two lines everything up to the next colon is skipped |
| `IhexStream.ColonRestarts` | ut/app_crc/main.c:114-119 | a colon starts a line whatever was held |
| `IhexStream.EndsExact` | ut/app_crc/main.c:124-144 | CR, LF and NUL end a line that is held, and nothing else does |
| `IhexStream.TooLong` | ut/app_crc/main.c:121-122 | a line of 256 characters is never handed on |
| `IhexStream.PrintedFileSplits` | ut/app_container/main.c:69-94 | a printed file fed character by character, with either line end, is split into exactly its lines |
| `Checksums.CrcEight` | bootloader/app_info.c:26-30 | the masked inner loop is eight steps of the reflected division by 0xEDB88320 |
| `Checksums.CrcUpdate` | ut/app_crc/main.c:16-33 | the byte loop computes the CRC-32 register of the message from any start |
| `Checksums.CrcOfParts` | ut/app_crc/main.c:94-99 | feeding a message in parts is feeding it whole |
| `Checksums.CrcStateInjective` | ut/app_crc/main.c:16-33 | no two CRC registers ever meet, whatever is fed |
| `Checksums.CrcOneByteDetected` | bootloader/app_info.c:14-34 | two messages of one length that differ in exactly one byte never have the same CRC |
| `Checksums.CheckValue` | bootloader/app_info.c:14-34 | the CRC of the digits 1 to 9 is 0xCBF43926 |
| `CrcGap.StepsAre` | ut/app_crc/main.c:16-33 | n bit steps of the CRC register multiply it by x to the n, for every register and n |
| `CrcGap.BackAfterOrder` | ut/app_crc/main.c:16-33 | 2^32 - 1 bit steps lead every register back to itself |
| `CrcGap.NeverBack` | ut/app_crc/main.c:92-99 | no number of 0xFF bytes, from one up to the size of the application area, leads the CRC register from its start back to it |
| `Checksums.Chsum32` | ut/app_container/main.c:23-35 | the loop computes the rotate-and-add fold |
| `Checksums.ChsumOfParts` | bootloader/ext_storage.c:104-115 | sector by sector is the whole |
| `Checksums.OneByteDetected` | ut/app_container/main.c:23-35 | two images of one length that differ in exactly one byte never have the same chsum32 |
| `Checksums.ChsumOfThree` | ut/app_container/main.c:19-35 | one chsum32 by its numbers |
| `AppCrcTool.CrcTool.FillGap` | ut/app_crc/main.c:92-96 | the gap loop feeds one 0xFF per missing byte |
| `AppCrcTool.CrcTool.ComputeCrc` | ut/app_crc/main.c:47-106 | one record, whatever its address and length, updates info page, CRC, size and address as specified, stops with a fatal error, or is written behind the page |
| `AppCrcTool.InfoExact` | ut/app_crc/main.c:53-64 | a record that passes the test of the info page is written inside it if and only if its end does not wrap around 32 bits |
| `AppCrcTool.InfoWraps` | ut/app_crc/main.c:53-64 | a record at 0xFFFFFFF8 passes that test |
| `AppCrcTool.CrcTool.Run` | ut/app_crc/main.c:168-195 | from the records of both passes: the printed file is the patched info page, the data records of the second pass and the end record |
| `AppCrcTool.DatasTaken` | ut/app_crc/main.c:78-103 | the streamed CRC and size are those of the whole application with its gaps erased |
| `AppCrcTool.TakenExact` | ut/app_crc/main.c:47-106 | the first pass takes an input if and only if every record of it is of the info page and does not wrap, or is of the application, comes behind a device id written in the page, and does not step back behind the application record before it |
| `AppCrcTool.FirstPass` | ut/app_crc/main.c:47-106 | a good input runs through without a fatal error and leaves page, CRC and size of the whole application |
| `AppCrcTool.LateStartExact` | ut/app_crc/main.c:78-103 | with the first record a gap behind the start address the size counts the gap and the stored CRC is that of the application with the gap erased if and only if the gap is empty |
| `ContainerTool.Packer.LoadBin` | ut/app_container/main.c:37-67 | a record, whatever its address and length, is laid at its place behind what was loaded before, stops with a fatal error, or is written behind the array |
| `ContainerTool.AddressedExact` | ut/app_container/main.c:42-61 | a record that passes the address test stays inside the array if and only if its end neither wraps nor lies in the 512 bytes behind it, and no record of the array is refused |
| `ContainerTool.RunsOver` | ut/app_container/main.c:42-61 | two records that pass and are written behind the array |
| `ContainerTool.Packer.BuildHeader` | ut/app_container/main.c:173-185 | the header is the specified one, and at the offsets of the container structure it carries the size of the image, its checksum, no unit number, the six bytes of ids, the name cut or filled up to sixteen, no encryption, an empty reserve and its own checksum |
| `ContainerTool.HeaderLayout` | ut/common/container.h:8-20 | every field of the specified header stands at its offset, for every image, ids and name |
| `ContainerTool.PackedExact` | ut/app_container/main.c:135-191 | with at least the page loaded a container is made if and only if the info page gives the size of what follows it; the ids are bytes 8 to 13 of the page, header and image lie at 0x3c0000 and 0x3c0200 |
| `Layout.LittleEndian` | ut/common/container.h:8-20 | numbers are stored low byte first |
| `ContainerTool.Packer.Print` | ut/app_container/main.c:135-191 | header and image are printed, unless the size in the info page is not the size loaded |
| `ContainerTool.LoadOps` | ut/app_container/main.c:37-67 | the records of any ascending flushes, cut into lines, leave their image in the array, erased in the gaps |
| `Bootloader.ExtStorage.WriteData` | bootloader/ext_storage.c:156-168 | writes the addressed bytes of the firmware window; what its 32-bit test lets through outside the window goes to the flash driver; everything else is refused |
| `Bootloader.PassesExact` | bootloader/ext_storage.c:161 | what passes the test lies in the window if and only if its end does not wrap, and nothing of the window is refused |
| `Bootloader.EndWraps` | bootloader/ext_storage.c:161 | sixteen bytes at 0xFFFFFFF8 pass the test |
| `Bootloader.ExtStorage.SumSectors` | bootloader/ext_storage.c:102-115 | the sector loop computes the checksum of the data as a whole, the last sector in part |
| `Bootloader.ExtStorage.CheckFw` | bootloader/ext_storage.c:58-124 | accepts if and only if the header is valid, the size in range and the data checksum right |
| `Bootloader.ExtStorage.ReadFw` | bootloader/ext_storage.c:126-154 | an aligned request yields the sector behind the container, any other leaves the destination alone |
| `Bootloader.Board.FlashApp` | bootloader/main.c:133-161 | copies the whole sectors of an accepted image to the info page, and writes nothing otherwise |
| `Bootloader.Board.CheckApp` | bootloader/main.c:163-185 | true exactly when the size is in range and the CRC of the application is the stored one |
| `Bootloader.Board.Boot` | bootloader/main.c:245-303 | the application is started if and only if it is whole, no stay in the bootloader was requested and the boot counter is at most five; the flash changes only by a complete copy of an accepted image; and what becomes of both registers |
| `Bootloader.StartsCounts` | bootloader/main.c:281-288 | the boot counter counts by one and wraps at 32 bits |
| `Bootloader.RestartHarmless` | bootloader/main.c:151-158 | a copy cut short anywhere is repaired by the next complete one |
| `ImageChain.FileReceived` | bootloader/ihex.c:35-116 | a printed file closed by its end record gives back the flushed data and resets the base |
| `ImageChain.PageThenApp` | ut/app_container/main.c:126-135 | the container tool fills page and gaps with the 0xFF the CRC was taken over |
| `ImageChain.CrcToContainer` | ut/app_crc/main.c:168-195 | from the text of a good input both tools succeed, and the container holds the signed image |
| `ImageChain.ReadsTwiceExact` | ut/app_crc/main.c:170-193 | with its last line complete, a text is read the same by both passes of app_crc if and only if the base is left at zero or no data record stands before the first that sets it |
| `ImageChain.ContainerStored` | bootloader/main.c:32-50 | sent to the bootloader line by line, the container lies in the external flash byte for byte |
| `ImageChain.TypedExact` | bootloader/main.c:35-50 | one typed line, whatever it is: yes unless it is refused or its address fails the test, and the window changes exactly in the bytes of data that lie in it |
| `ImageChain.WrappingLineTyped` | bootloader/main.c:35-46 | two lines by which the bootloader is handed an address whose end wraps, and answers yes |
| `ImageChain.StoredIsAccepted` | bootloader/ext_storage.c:58-124 | the check accepts that flash; every field of the header stands in it at its offset, the ids being those of the info page, and the image follows |
| `ImageChain.EndToEnd` | bootloader/main.c:133-185 | for every HEX text of a good input that both passes read alike, the chain of tools, text, parser, flash, check and copy puts the image into the internal flash byte for byte, and the CRC recomputed there is the one app_crc stored |
| `ImageChain.FlippedByteRefused` | bootloader/ext_storage.c:104-116 | a single wrong byte of the stored image makes the check refuse it |
| `ImageChain.FlippedHeaderRefused` | bootloader/container.c:9-25 | a single wrong byte anywhere in the stored header makes the check refuse it |
| `ImageChain.FlippedAppExact` | bootloader/main.c:163-185 | with a single wrong byte behind its size a whole application is still started if and only if the byte lies in the rest of the info page or behind the application |
| `ImageChain.SizesAccepted` | bootloader/ext_storage.c:95-99 | the sizes the two checks let through |
| `ImageChain.SomethingIsBuildable` | bootloader/app_info.h:15-24 | such texts exist |
| `ImageTools.Container.FeedChar` | ut/app_container/main.c:69-94 | one character of the input goes through framing, parser and loader as specified |
| `ImageTools.PackFile` | ut/app_container/main.c:126-191 | the program on any text computes the container file of that text, stops, or writes behind its array, as specified |
| `ImageTools.SignFile` | ut/app_crc/main.c:147-196 | the program on any text, read twice by one parser, computes the checked file, stops, or writes behind its page, as specified |
| `ImageTools.TypeFile` | bootloader/main.c:32-50 | the terminal answers every line and fills the firmware window as specified, addresses that wrap included |
| `ImageTools.BuildAndFlash` | bootloader/main.c:245-303 | the programs run one after the other bring the image of every good input to the internal flash byte for byte, and it is started if and only if the boot counter allows it |
| `SiaCrc.TableIsEight` | app/cms/cms_sia_ip.c:131-164 | every entry of the table is eight bit steps with the polynomial 0xA001 |
| `SiaCrc.StepsAgree` | app/cms/cms_sia_ip.c:179 | the table step is the bit-by-bit step, for every register and byte |
| `SiaCrc.CrcCalc` | app/cms/cms_sia_ip.c:166-182 | the table loop computes the bit-by-bit CRC up to NUL, CR or 240 bytes |
| `SiaCrc.ShiftInjective` | tests/test_cms_sia.c:17-36 | no two register values ever meet: the step is a bijection of the state |
| `SiaCrc.ErrorDetected` | app/cms/cms_sia_ip.c:166-182 | two messages of equal length that differ only inside two neighbouring bytes never have the same CRC |
| `SiaFrame.CheckValue` | app/cms/cms_sia_ip.c:166-182 | the checksum of the digits 1 to 9 is 0xBB3D |
| `SiaFrame.ScanOfHex4` | app/cms/cms_sia_ip.c:317-318 | the four printed CRC digits scan back to the CRC, whatever follows |
| `SiaFrame.AcceptsHeaded` | app/cms/cms_sia_ip.c:296-338 | a frame with any CRC and length in its header is accepted if and only if both are right and the size is allowed |
| `SiaFrame.RoundTrip` | app/cms/cms_sia_ip.c:241-338 | every built frame that fits is accepted, down to the receiver's minimum length |
| `SiaFrame.BuiltIsAccepted` | app/cms/cms_sia_ip.c:241-294 | a reported event gives an accepted frame, an event without a code none |
| `SiaFrame.CorruptionRefused` | app/cms/cms_sia_ip.c:324-328 | a frame changed inside two neighbouring data bytes is refused |
| `SiaFrame.PutHeader` | app/cms/cms_sia_ip.c:284-291 | the two overlapping prints and the restored quote leave LF, CRC, length and the data intact |
| `SiaFrame.BuildMsg` | app/cms/cms_sia_ip.c:241-294 | the buffer holds the whole frame, or 0 is returned for an event without a code |
| `SiaProto.RegionReads` | app/cms/cms_sia_ip.c:193-277 | every built region begins with the literal tag; from there the scanner gives the counter before L, the prefix before # and the account before the bracket, and behind it stand the event mark, code, zone, source and the four texts in order |
| `SiaProto.FieldsReadExact` | app/cms/cms_sia_ip.c:193-211 | code and zone, and the source behind them, are read back up to their ^ if and only if they contain none |
| `SiaFrame.Rx` | app/cms/cms_sia_ip.c:296-338 | the in-place check accepts exactly the acceptable datagrams and leaves them unchanged |
| `SiaProto.HexScans` | app/cms/cms_sia_ip.c:252 | a number printed with %X has only digits and reads back as itself |
| `SiaProto.ScanOfRun` | app/cms/cms_sia_ip.c:340-384 | a conversion without width takes the whole run of digits, stops at what follows, and gives the largest number when theirs does not fit |
| `SiaProto.MinusIs` | app/cms/cms_sia_ip.c:349-372 | a minus sign gives the complement to 2^32 |
| `SiaProto.RxAck` | app/cms/cms_sia_ip.c:340-384 | the in-place check and the scan give the meaning of the answer, on every datagram |
| `SiaProto.ReplyExact` | app/cms/cms_sia_ip.c:435-450 | a framed ACK is taken if and only if counter, prefix and account fit, a NAK if and only if counter and prefix fit, for all values |
| `SiaProto.LateAnswerExact` | app/cms/cms_sia_ip.c:395-450 | an answer that was right for one event's packet is taken for a later one if and only if a multiple of 9999 events lies between |
| `SiaProto.SiaUnit.NewPacket` | app/cms/cms_sia_ip.c:395-413 | a pending packet is never replaced; otherwise the counter moves on and the frame of the event, if it has one, is pending |
| `SiaProto.NewEventReads` | app/cms/cms_sia_ip.c:395-413 | a new event with a code gives an accepted frame between LF and CR in which the next counter value, the prefix and the account of the object and the event are read |
| `SiaProto.EchoIsTaken` | app/cms/cms_sia_ip.c:395-450 | a receiver that echoes the numbers it reads in that frame is understood: its ACK is taken as ACK, its NAK as NAK |
| `SiaProto.SiaUnit.PacketReply` | app/cms/cms_sia_ip.c:435-450 | the verdict on a datagram is that of the meaning |
| `SiaProto.SiaUnit.PacketDone` | app/cms/cms_sia_ip.c:430-433 | releases the pending packet and keeps counter, prefix and account |
| `MultiSms.Msms.GetFreeBuf` | modem/multi_sms.c:30-68 | the first free slot, every other message's slots being freed when there is none |
| `MultiSms.Msms.FindInBuf` | modem/multi_sms.c:70-83 | the first slot with that part, or -1 |
| `MultiSms.Msms.Incomming` | modem/multi_sms.c:85-118 | stores the part and answers as specified |
| `MultiSms.Msms.GetText` | modem/multi_sms.c:120-177 | the joined text and its length, or nothing |
| `MultiSms.Msms.Delete` | modem/multi_sms.c:179-193 | clears exactly the slots of that message |
| `MultiSms.DoneAtLastPart` | modem/multi_sms.c:85-118 | from empty slots, with parts of other messages in between and no eviction, DONE comes exactly with the last missing part |
| `MultiSms.GetExact` | modem/multi_sms.c:120-177 | with all parts stored the text is their concatenation in part order with its exact length |
| `MultiSms.GetLengthExact` | modem/multi_sms.c:120-177 | with all parts stored, some perhaps twice, the text is their concatenation, and the length returned is that of the text if and only if no part is stored twice |
| `MultiSms.OrderIndependence` | modem/multi_sms.c:85-177 | two arrival orders of the same parts give the same text |
| `MultiSms.PartStays` | modem/multi_sms.c:30-68 | an arrival keeps a stored part if and only if a slot is free or it is of the same message; a delete keeps it if and only if it is of another |
| `MultiSms.RefusedExact` | modem/multi_sms.c:85-118 | a part is refused if and only if it is longer than 160 characters or every slot holds a part of its own message |
| `MultiSms.DeleteExact` | modem/multi_sms.c:179-193 | a delete frees every slot of its message and no other; that message reads as nothing then, every other one as before |
| `AesModes.XorWords` | ut/common/aes.c:881-924 | the word path computes the bytes of the byte path |
| `AesModes.CryptCbc` | ut/common/aes.c:856-938 | both loops, in place or not, compute CBC and leave the last ciphertext block in the vector |
| `AesModes.CbcEncryptAt` | ut/common/aes.c:900-934 | every output block is the encryption of its plaintext xor the output block before it, the vector for the first |
| `AesModes.CbcDecryptAt` | ut/common/aes.c:867-898 | every output block is the decryption of its ciphertext xor the ciphertext block before it |
| `AesModes.CbcRoundTrip` | ut/common/aes.c:856-938 | for every block permutation CBC decryption undoes encryption |
| `AesModes.CryptCfb128` | ut/common/aes.c:943-981 | the byte loop, in place or not, computes CFB-128 from any offset and leaves vector and offset |
| `AesModes.CfbFirst` | ut/common/aes.c:943-981 | up to the end of the register each output byte is the input xor the register from the given offset on, encrypted first when the offset is 0 |
| `AesModes.CfbRegister` | ut/common/aes.c:943-981 | the ciphertext takes the place of the bytes used, and a register used up starts over at 0 |
| `AesModes.CfbIsStandard` | ut/common/aes.c:943-981 | from a block boundary a call of any length gives CFB as the standard has it: each block xor the encryption of the ciphertext block before it |
| `AesModes.CfbRoundTrip` | ut/common/aes.c:943-981 | CFB decryption undoes encryption and leaves the same vector and offset |
| `AesModes.CfbSplit` | ut/common/aes.c:943-981 | splitting a call at any byte changes neither output nor vector nor offset |
| `AlarmParts.AlarmUnit.TriggerAlarm` | app/alarm.c:76-91 | a trigger is counted unless an alarm is active, and starts siren and alarm time while the count is at most three |
| `AlarmParts.AlarmUnit.Tick` | app/alarm.c:56-74 | one tick of both timers, each counting to its own end; what that means over runs is in `AlarmEnds` |
| `AlarmEnds.AlarmLasts` | app/alarm.c:56-91 | from an alarm event processed outside an alarm, over every run without alarm_stop: active for less than 1200 ticks and sounding for less than 300, whatever further events are processed, and ended by the 1200th tick |
| `AlarmEnds.StaysActive` | app/alarm.c:56-91 | the same from every state with an active alarm, for any rest of its timers: active for every n below the alarm timer, sounding for every n below the siren timer, and nothing counted |
| `AlarmEnds.EndsThen` | app/alarm.c:66-73 | the tick that uses up the alarm timer leaves the timed-out state with the siren off |
| `AlarmEnds.NextSounds` | app/alarm.c:76-91 | the next alarm event after that sounds the siren again, for 300 ticks of 1200, if and only if fewer than three have |
| `AlarmEnds.TriggerExact` | app/alarm.c:76-91 | a trigger outside an alarm counts, and starts 300 ticks of siren and 1200 of alarm exactly while fewer than three were counted |
| `AlarmEnds.StopExact` | app/alarm.c:93-100 | alarm_stop ends alarm and siren, and the next trigger counts from one again |
| `AlarmEnds.SoundsNineHundred` | app/alarm.c:56-91 | a run of three alarms that sounds the siren for 900 ticks, so that the bound of `AlarmRuns.AlarmBounds` is reached |
| `AlarmParts.SectionUnit.SignalInput` | app/section.c:109-149 | what an input signal does in each section state |
| `AlarmParts.SignalExact` | app/section.c:88-149 | an alarm at once for a 24-hour input in an unset or set section and for an instant one in a set one, an entry delay for a delayed one with no timer running, nothing otherwise; only enabled inputs act, and every enabled one does but a tamper or a delayed one |
| `AlarmParts.SectionUnit.Task` | app/section.c:161-184 | a run-out timer ends exit and entry delay; the entry delay becomes an alarm of its input |
| `AlarmParts.EntryDelayExact` | app/section.c:70-184 | a delayed input in a set section makes its alarm with the first section task after more than its delay, and none after a disarming |
| `AlarmParts.ExitDelayExact` | app/section.c:32-184 | after arming a delayed input starts an entry delay if and only if more than the exit delay has passed, while an instant one alarms at once |
| `AlarmParts.DisarmExact` | app/section.c:32-61 | unsetting ends timer, flags and alarm of the section |
| `AlarmParts.ActivationExact` | app/system_input.c:58-72 | an activation is ignored after three; otherwise counted, signalled at once without a postponement, and with one it starts the timer but never a running one anew |
| `AlarmParts.PostponedExact` | app/system_input.c:58-93 | the postponed signal is due with the tick its timer gives, however often the input is activated meanwhile |
| `AlarmInPlace.CarAlarm.InpActivated` | app/system.c:68-108 | an activation that nothing interrupts counts, postpones or signals as the input and the section say, and is a run of its handler from start to end |
| `AlarmInPlace.CarAlarm.Tick` | app/system_input.c:74-93 | every input timer once, a run-out one signalling its input, as its handlers do when nothing interrupts them |
| `AlarmInPlace.CarAlarm.Task` | app/system.c:206-209 | the section task that nothing interrupts is its two steps: a timer found run out, then the end of the delays with its alarm |
| `AlarmInPlace.CarAlarm.Arm` | app/system.c:151-160 | arming is the timers, the state and, when it changed, a reset of the inputs |
| `AlarmInPlace.CarAlarm.Disarm` | app/system.c:162-181 | disarming stops the alarm and resets the inputs, and reports a cancel exactly when an alarm was active |
| `AlarmInPlace.QueuedInRing` | app/event.c:133-162 | the number of queued events steps as the ring of event.c does |
| `AlarmRuns.AlarmBounds` | app/alarm.c:22-100 | over every interleaving, with each handler stopped between test and action: since alarm_stop an input makes at most three alarm events, beside those that were on their way then and one for each counted activation that a reset has taken back; the alarm counter stays far from its wrap, and the siren is on for at most 900 ticks |
| `AlarmCounts.CountExact` | app/system_input.c:58-72 | from every state of the armed system, whatever handlers are under way, the events that an input which starts an entry delay or alarms at once can reach before the next command are exactly those up to the ones made, the ones on their way and three less its count |
| `AlarmCounts.FourExact` | app/system_input.c:58-72 | such an input can make more than three further events before the next command if and only if more is on its way than it has counted, and more than three since alarm_stop if and only if those made and those on their way are more than it has counted |
| `AlarmCounts.AtMost` | app/system_input.c:58-93 | the upper half of that, from every safe state, armed or not |
| `AlarmCounts.Drain` | app/system_input.c:58-93 | the lower half: a run without commands in which everything on its way and every activation still counted becomes an event |
| `AlarmCounts.QuietPeriod` | app/system_input.c:58-72 | when no input has more on its way than it has counted, then until the next command there are at most three further alarm events per input and 24 in all |
| `AlarmCounts.ArmedExact` | app/system.c:151-160 | with the new state written and the inputs not yet reset, more than three events since alarm_stop become possible if and only if the input has made one or has one under way by a handler or the entry delay |
| `AlarmCounts.SixAlarms` | app/system.c:151-160 | a run from boot without alarm_stop and with nothing carried: an input makes three events between the new state and the reset, and three after it |
| `AlarmCounts.FourthAlarm` | app/section.c:63-68 | the run of the late alarm event goes on to a fourth event of one input after a single alarm_stop |
| `AlarmDisarm.NoAlarmAfterDisarm` | app/section.c:32-184 | from the end of section_unset to the next arming at most the handlers already past their test make an alarm event, each one; with none, and the siren off with nothing queued, it stays off |
| `AlarmDisarm.DisarmExact` | app/section.c:109-184 | after a disarm no run makes an alarm event before the next arming if and only if no handler was past its test and no entry delay was running |
| `AlarmDisarm.AlarmStillComes` | app/section.c:63-80 | from every state with such a handler there is a run to its alarm event, with no command in it |
| `AlarmDisarm.DisarmLeaves` | app/system.c:162-181 | a disarm that nothing interrupts ends every delay and leaves exactly the handlers past their test |
| `AlarmDisarm.AlarmAfterDisarm` | app/section.c:161-184 | a run from boot: the section task is past its test, the whole disarm is carried out, the alarm event is made |
| `AlarmDisarm.SoundExact` | app/system.c:183-199 | with siren and alarm off and room for a trigger, some run before the next arming sounds the siren if and only if an alarm event is queued or a handler is past its test |
| `AlarmDisarm.LateEventSounds` | app/system.c:162-199 | alarm_stop silences the siren, and some run before the next arming sounds it again if and only if an alarm event is queued then or a handler is past its test |
| `AlarmRuns.InitIsSafe` | app/system.c:31-53 | the state set up at boot satisfies the invariant of the runs |

## Left out

- Calls into the SDK (buffers, flash drivers, real-time clock, text parsing, queues of the operating system) are parameters or plain
  sequences; flash is an array of slots with atomic record writes, and reads and writes of it do not fail.
- Where several tasks run, the tracer link, the update and the alarm are cut at the statements named with them; any other call (of the GPS ring, the
  event buffer, the event ring, the reassembly) is one step, and a switch of tasks inside it is not modelled.
- Allocation failure, timer wrap-around and the wrap of the u16 track number are assumed away.
- The store intervals, shock and power handling, NMEA parsing and server resolution of the tracer; GPIO, LED and siren beeps; console commands,
  CAN, BLE and modem handling.
- `app/cms/cms_main.c`: its queue never gets an event, because it adds with the user that `event_buf_add_event` refuses.
- SiaFrame.BuildMsg: the tables of event codes and zones, the texts and the printed times of a report are parameters; a region that does not fit,
  where the source stops at an assertion, is excluded.
- SiaProto.ScanOfRun: numbers beyond 32 bits saturate; an 0x prefix without a digit behind it fails to convert.
- TracerRuns.CrashSafety: a hard erase inside a run is not a step; a reboot is allowed where it is safe, and the other reboots are
  covered by `UnsafeRebootSkips`; the caller keeps at most 32767 records pending and at most 16384 points to a track.
- TracerProtocol.Delivery: the clear of the acknowledge, the send, its test-and-clear and the marking of one record are steps nothing
  interrupts; timers, retry counts and the network are choices of the run, so it says nothing about how soon a reply comes.
- TracerComm.Comm.CommProcess: points stored while it waits are steps of the protocol runs, not of this method; the hard erase at its start, the
  name lookup and the sleep times are left to its caller.
- EventBuffer.EventBuf.ForEach: the callback is a predicate of the event; a callback with its own state is not modelled. A buffer of
  size 0 is excluded, and the out-parameters the source overwrites when no event is found are not returned.
- EventBatch.Batch: the text of the message and the two-second delay are not part of the run; each call of the event buffer is one step, although
  the source does not lock it.
- Update.UpdateSafety: flash writes succeed (the source only logs their failure), the server sends one image, only one task receives, and the
  phase does not reach 2^31; back-off times are choices of the run. These are steps that nothing interrupts: one flash write, counting the
  phase, the three stores of a start (`app/update.c:217-219`), and in the sender the tests of the request (`:226`) and of the phase (`:261`)
  together with the clear of the acknowledge (`:69`).
- IhexRoundTrip.RoundTrip: the printed text is a sequence of lines; `IhexStream` adds the characters for the two tools, while the terminal
  of the bootloader splits its lines in the SDK, and its commands are not modelled.
- AppCrcTool.FirstPass: a fatal error of the tools ends the program, and a write behind an array ends the model; a data record of a good input is
  not empty.
- Bootloader.ExtStorage.WriteData: what the flash driver does with an address outside the window is not modelled; the window is taken to stay as it was.
- Bootloader.Board.Boot: the reset kind and what clears the boot counter are inputs; the time limit of the terminal is left out.
- ImageChain.EndToEnd: the container is not encrypted (the bootloader cannot decrypt one), writing the external flash sets the bytes written, and
  reading behind its end fails.
- Checksums.OneByteDetected: nothing is claimed about longer errors, which chsum32 can miss.
- MultiSms.OrderIndependence: parts are texts of at most 160 characters; what happens to a message that was partly evicted is not described.
- AesModes.CryptCbc: the block cipher, its tables and its key schedule are a parameter; the word path is chosen by a flag instead of by the
  alignment of addresses.
- AlarmRuns.AlarmBounds: inputs that react around the clock, the unfinished partly-armed state and delays of zero are excluded; events other than alarms
  in the shared queue are not counted. One command runs at a time, and these are steps that nothing interrupts: counting an activation
  (`system_input_alarm`), one input of a tick, starting an entry delay (`_delay_alarm`), making the alarm event, `alarm_trigger`,
  `alarm_stop`, `alarm_tick` and the reset of all inputs.
