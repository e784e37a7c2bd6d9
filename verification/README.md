# A verified model of the mythunder data logger

The logger records data into numbered files, reads GPS sentences from a serial line and
coordinates its threads with a small suspend / resume / wait protocol. This project models
those three parts and proves what they keep over whole runs.

**The record manager** (`filesysmgr.cpp`, `util.cpp`). An index file, a 0x400-byte header
followed by 0x200-byte slots, describes a queue of data files. `submit` appends to the open
record and closes it at 128 MB; closing evicts the oldest record when the closed ones are
over capacity. The eviction shifts the index file down in place, starting inside the header.

- `Bytes`, `Options`, `Layout`: 32-bit words, C strings, `printf` conversions, the two structures.
  `Scanf`: a reader for printed text, which tells what names and report lines say.
- `Files`: streams, the directory, `remove_content`. `SlotFile`: the byte-level updates, for
  any header length that is at least the slot length.
- `Names`: the name counter and the retry loop.
- `RecordLog`: the queue of records as a value, with the 32-bit width of its counters.
  `IndexFile`: the bytes of the index file for a queue. `FilesysMgr`: the class, each
  method proved to do to its bytes and fields what the queue operation does.
  `Reporting`: the text of `report`.
- `History`: runs of submits and restarts, and what is on disk after any of them.
- `Grouping`: a reference that knows no files: the stream of submits cut into groups that
  just reach the unit length, and a rule that says how many groups are gone. `Retention`,
  `Runs`: the disk after a run whose counters do not wrap is the reference, and the
  consequences. `Restarts`: the space bounds with restarts. `Wrapping`: exactly when the
  total can wrap, and runs that reach the bounds. `Outcomes`: a condition on the operations
  under which no signed counter overflows.
- `Service`: the object driven through a sequence of submits and restarts, and what is then
  in its index file and directory, read from the bytes.

**The serial receiver** (`serialport.cpp`). `Framing` has a stream parser and a byte-driven
machine for any tag and frame length, their equality and self-synchronisation; `GpsFix` has
the conversion of the hour; `Serialport` is the loop with its two buffers and three cursors.

**The thread gate** (`thread.cpp`). `Gate` is the protocol as interleaved atomic steps of any
number of threads, with spurious wakeups. `Cthread` is the object: suspend, resume, wait and
the waiting part of start as whole calls, between any two statements of which other threads
do whatever the protocol allows.

## Findings

- The total in the header is an `unsigned long`. For capacity C, unit length U, submits of
  at most S bytes and at most R restarts in the middle of a record, it is the true number of
  bytes in the finished records after every defined run if and only if
  (C/U+1+R)(U+S-1) < 2^32 (`Wrapping.NoWrapIff`; for one submit, the exact condition is
  `Wrapping.TotalStaysBelowIff`). With the capacity that the constructor sets and submits of
  at most the unit length that is thirteen restarts, with single bytes twenty-eight
  (`Wrapping.ConfiguredCapacityNeverWraps`, `Wrapping.ConfiguredRestartsIff`). With one more
  the total can wrap: after twenty-nine restarts, each behind the first byte of a record, 4 GB
  in records of the unit length stay on disk under a header of 0, and eviction has stopped
  (`Wrapping.RestartsWrapTotal`). Without any restart, two records of U bytes and three of
  about 1.4 GB do the same (`Wrapping.ConfiguredTotalWraps`).
- The length counter of a handle wraps by itself when one record gets 2^32 bytes
  (`Runs.ClosesExactlyWhen`, `Runs.LargeSubmitsWrap`). That takes one buffer of more than
  0xF8000000 bytes, which a process with 32-bit addresses cannot have in practice; the
  condition on the total depends on it only for C < U without restarts
  (`Wrapping.OneRecordWraps`).
- A restart in the middle of a record leaves a slot of length 0. When that slot is evicted
  nothing is freed, so each such restart raises the bound on the number of finished records
  by one (`Restarts.SpaceBoundAcrossRestarts`), that bound is reached
  (`Wrapping.RestartsReachBound`), and the number never goes down again
  (`Restarts.FinishedNeverDrops`).
- `release` compares the total with the whole capacity; MAX_CAPACITY_PERCENT and the scaled
  total it computes are not used. The model follows the code.
- `thread.h` says that `suspend` suspends the current thread and that `wait` waits for the
  next wakeup. In the code `suspend` only counts down, and `wait` returns at once unless the
  count is negative. The model follows the code.
- `resume` signals one parked thread only. A signal at counter 0 or above loses no wakeup,
  whichever thread it wakes, if and only if at most one thread is parked
  (`Gate.SignalIsSafeIff`, for runs `Gate.SignalsAreSafeIff`; what a given run loses is
  `Gate.NeverLostIff`). With two it can (`Gate.TwoWaitersCanLoseAWakeup`); with one waiter
  none is lost.
- The receiver needs packets without a '$' in the payload to find back into step, and only
  one of them (`Framing.SelfSynchronises`). If the first packet has one, the next packets
  come out as they are exactly when the bytes behind the part that was mistaken for the
  held frame can be skipped (`Framing.SynchronisesIff`). With a '$' at the end of every
  payload it can miss all of them (`Framing.NeverSynchronises`).

## Model

| member | source | states |
|---|---|---|
| Bytes.WordRoundTrip | filesysmgr.h:60-64 | a 32-bit word survives being written as four bytes and read back |
| Bytes.LittleEndianValue | filesysmgr.h:60-64 | the four bytes of a word on disk, lowest first, weigh 1, 2^8, 2^16 and 2^24 |
| Bytes.LittleEndianRoundTrip | filesysmgr.h:60-64 | every four bytes are the image of the word they are read as |
| Bytes.StringRoundTrip | filesysmgr.cpp:317-319 | a string copied into a larger field is read back as it was, whatever was in the field, and no byte behind its NUL changes |
| Bytes.DecimalInjective | util.cpp:12-13 | different numbers print as different digits |
| Scanf.DecimalValue | util.cpp:12-13 | the digits that `%d` prints have the value of the number, with no zero in front |
| Scanf.HexValue | filesysmgr.cpp:616-618 | the lower-case digits that `%x` prints have the value of the number, with no zero in front |
| Layout.HeaderAt | filesysmgr.h:58-66 | the fields of the header are at offsets 0, 4, 8, 12, 16 and 20 of 0x400 bytes |
| Layout.NodeAt | filesysmgr.h:68-78 | the fields of a node are at offsets 0, 4, 8, 12, 44, 76 and 204 of 0x200 bytes |
| Layout.HeaderRoundTrip | filesysmgr.h:58-66 | the header read from its 0x400 bytes is the header that was written |
| Layout.NodeRoundTrip | filesysmgr.h:68-78 | a node read from its 0x200 bytes is the node that was written |
| Layout.NodeBytesRoundTrip | filesysmgr.cpp:530-531 | reading a slot loses nothing: the node determines all of its bytes |
| Files.File.Read | filesysmgr.cpp:503-504 | a read at a position returns what is there, short at the end of the file and empty past it |
| Files.File.Write | filesysmgr.cpp:505-506 | a write replaces bytes at a position and leaves the others |
| Files.OverwriteAt | filesysmgr.cpp:505-506 | every byte of the file after a write: the chunk at its place, the old bytes around it, zeros in a hole before it |
| Files.RemoveContent | filesysmgr.cpp:446-517 | the copy loop ends; the cut bytes are gone, the rest has moved down, as many zeros stand at the end, the length is unchanged; -1 and no change for length 0 |
| Files.CopyBlock | filesysmgr.cpp:501-510 | one pass of the loop extends the moved part by exactly the block read, and a short block means the end of the file |
| SlotFile.ShiftOut | filesysmgr.cpp:535-553 | for any header at least as long as a slot, cutting one slot length at an offset of one slot length and rewriting the header leaves the new header, the bytes behind the first slot, and zeros |
| SlotFile.Pop | filesysmgr.cpp:530-554 | that shift deletes exactly the oldest block, keeps the others in order and frees a zero slot |
| SlotFile.Push | filesysmgr.cpp:272-339 | a block written at the slot after the last one, then the header, adds it at the back, in a free slot or by growing the file |
| SlotFile.SetLast | filesysmgr.cpp:575-594 | a block written at the last slot in use, then the header, replaces that block only |
| Names.TimeSource.GetTime | util.cpp:6-19 | the counter goes up by one; date and time are its decimal texts |
| Names.NameReads | filesysmgr.cpp:286 | a reader finds in a file name "data_", the number 20150405, "_", the counter, ".dat", and nothing else |
| Names.NameInjective | filesysmgr.cpp:286 | different counter values give different file names |
| Names.NameFits | filesysmgr.cpp:317-319 | name, date and time fit their fields for every non-negative int |
| Names.FirstFree | filesysmgr.cpp:283-296 | the retry loop ends at the first counter value whose name is free, after exactly as many failures as there were taken names passed |
| Names.FirstFreeUnique | filesysmgr.cpp:283-296 | no other value is free with all values before it taken |
| RecordLog.NewRecord | filesysmgr.cpp:261-345 | a new record keeps the queue invariants: contiguous numbers, different existing names, an open last record of length 0 |
| RecordLog.Written | filesysmgr.cpp:391-392 | writing data keeps the queue invariants |
| RecordLog.PopFront | filesysmgr.cpp:544-550 | eviction keeps the queue invariants |
| RecordLog.Closed | filesysmgr.cpp:578-590 | closing keeps the queue invariants |
| RecordLog.OverfullHasClosed | filesysmgr.cpp:421-433 | when the total is over capacity there is a closed record in front of the open one, so the slot count minus one cannot underflow |
| RecordLog.OpenSurvives | filesysmgr.cpp:428-433 | eviction leaves the open record at the back with its number and its file |
| RecordLog.ClosedSum | filesysmgr.cpp:590 | closing adds exactly the record's length to the sum over the slots |
| IndexFile.HeaderBytes | filesysmgr.cpp:324-336 | by offset in the index file: capacity, total modulo 2^32, count, slot length, the two record numbers as 32-bit words, zeros |
| IndexFile.RecordBytes | filesysmgr.cpp:313-325 | by offset in the slot of each record: number, length, the date and the counter in digits, the file name, zeros |
| IndexFile.IndexRoundTrip | filesysmgr.cpp:89-109 | header and every live slot read back from the index file are those of the queue; the slots behind are zero |
| IndexFile.IndexDeterminesQueue | filesysmgr.cpp:89-109 | two queues with the same index file have the same records, numbers, names and lengths |
| IndexFile.PushOnDisk | filesysmgr.cpp:272-339 | the two writes of new_record_handle turn the index file of a queue into that of the queue with the record pushed |
| IndexFile.PopOnDisk | filesysmgr.cpp:530-554 | the cut and the header write of remove_first turn the index file into that of the queue with its front popped |
| IndexFile.CloseOnDisk | filesysmgr.cpp:575-594 | the two writes of append turn the index file into that of the queue with the last length set |
| IndexFile.PopFields | filesysmgr.cpp:548-550 | the three header updates of remove_first give the popped queue's header; the wrapped difference is the wrapped sum of the rest |
| IndexFile.CloseFields | filesysmgr.cpp:578-590 | the updates of append give the closed queue's header and node |
| FilesysMgr.Manager.constructor | filesysmgr.cpp:50-158 | on an existing index file the object shows the queue the file was written for, without its open handle; on a new one the empty queue with the capped capacity |
| FilesysMgr.Manager.PickName | filesysmgr.cpp:283-303 | the retry loop ends and picks the first free name after the counter, with the text that `Names.NameReads` reads |
| FilesysMgr.Manager.NewRecordHandle | filesysmgr.cpp:261-345 | bytes, header, directory and handle become those of the queue with a new open record |
| FilesysMgr.Manager.Submit | filesysmgr.cpp:373-407 | bytes, fields, directory and handle become those of the queue after the submit; the result is the size, less 2^32 if it does not fit an int |
| FilesysMgr.Manager.Release | filesysmgr.cpp:410-444 | at most one eviction, before the closing record is counted, then the close; the result is 0 |
| FilesysMgr.Manager.RemoveFirst | filesysmgr.cpp:519-560 | the index file and header lose the front record and nothing else; its file and no other is deleted |
| FilesysMgr.Manager.Append | filesysmgr.cpp:563-600 | the slot written is the open record's, also after a shift; it gets the length, the total grows by it |
| FilesysMgr.Manager.Report | filesysmgr.cpp:602-647 | the text sent is the header line and one line for each live record, oldest first, up to where the descriptor comes up short; the result is the length of the whole lines, or -1 |
| Reporting.StopsAt | filesysmgr.cpp:621-643 | when a line does not fit, exactly the lines before it count |
| Reporting.HeaderLineReads | filesysmgr.cpp:616-618 | a reader finds behind the labels of the first line the capacity, the total, the count and the two record numbers |
| Reporting.RecordLineReads | filesysmgr.cpp:636-637 | a reader finds in the line of a record its counter, its file name and its length |
| Reporting.ReportHeaderReads | filesysmgr.cpp:616-618 | the first line of every report reads as the capacity, the sum of the slots modulo 2^32, the number of records and their two ends |
| Reporting.ReportLineReads | filesysmgr.cpp:633-643 | line i + 1 of every report reads as record i, oldest first |
| Reporting.NodeLineOfRecord | filesysmgr.cpp:636-637 | the line printed from a slot on disk is the line of the record |
| Grouping.GroupedIsGrouping | filesysmgr.cpp:391-406 | the stream falls into groups of whole submits, each reaching the unit length with its last submit and not before |
| Grouping.GroupingUnique | filesysmgr.cpp:391-406 | there is only one way to group a stream so |
| Grouping.EvictedKeepsUp | filesysmgr.cpp:421-433 | one eviction for each closing bounds the number of closed records by capacity / unit + 1, though sizes differ |
| Grouping.EvictedExact | filesysmgr.cpp:421-433 | with records of exactly the unit length the total stays within capacity plus one unit |
| Grouping.ClosedSizes | filesysmgr.cpp:391-395 | a closed record overshoots the unit length by less than the largest submit |
| History.Run | filesysmgr.cpp:373-407 | every invariant of the queue holds after any sequence of submits and restarts |
| History.RetainedIsSuffix | filesysmgr.cpp:373-444 | for submits of any size, any capacity and any number of restarts: the live files in order of their numbers are the submitted stream without a prefix of whole evicted records, each is made of whole submits, and the numbers count the evicted records |
| Retention.SubmitRetains | filesysmgr.cpp:373-407 | one submit takes the disk that the reference calls for to the disk that it calls for next |
| Runs.RunRetains | filesysmgr.cpp:373-444 | after any admissible run from a new index file every call had a defined outcome, and records, lengths, files and directory are exactly those of the reference |
| Runs.RunRetainsWhileExact | filesysmgr.cpp:373-444 | the same for any submits, up to and including the first submit that brings the closed records to 2^32 bytes |
| Runs.RetainedGroups | filesysmgr.cpp:373-444 | which part of the stream is retained: the groups that the reference has not dropped, joined in the order of their numbers |
| Runs.SpaceBound | filesysmgr.cpp:391-433 | at most C/U+1 closed records, total at most (C/U+1)(U+S-1), the header total is the sum of the slots and the bytes in the closed files, the open record is below the unit length |
| Runs.Conservation | filesysmgr.cpp:548-590 | bytes submitted = bytes evicted + header total + bytes in the open record |
| Runs.UniformBound | filesysmgr.cpp:391-433 | submits of one size that divides the unit length keep the total within capacity plus one unit |
| Runs.OtherFilesUntouched | filesysmgr.cpp:283-300 | for submits of any size, any capacity and any number of restarts: no file that was there before is touched; the files added are those of the live records, under different names |
| Runs.ClosesExactlyWhen | filesysmgr.cpp:391-405 | for submits of any size, a submit leaves the record open if and only if its bytes modulo 2^32 are fewer than the unit length |
| Runs.LargeSubmitsWrap | filesysmgr.cpp:392-394 | a record of 2^32 bytes is open with the length counter of its handle at 0 |
| Wrapping.TotalStaysBelowIff | filesysmgr.cpp:421-433 | one submit of any size keeps the sum of the slots below 2^32 if and only if it does not close, or what is kept and the closing counter stay below it |
| Wrapping.TotalCanWrap | filesysmgr.cpp:590 | whenever (C/U+1+R)(U+S-1) reaches 2^32 there is a run of submits of at most S bytes with at most R restarts in the middle of a record after which the header total is wrong |
| Wrapping.NoWrapIff | filesysmgr.cpp:590 | the header total is the bytes of the finished files after every run with submits of at most S bytes and at most R restarts in the middle of a record, if and only if (C/U+1+R)(U+S-1) < 2^32 |
| Wrapping.ConfiguredTotalWraps | filesysmgr.cpp:421-433 | at the capacity of 0x10000000, five records leave 2^32+2 bytes in three closed ones under a total of 2, which is not over capacity |
| Wrapping.RestartsWrapTotal | filesysmgr.cpp:421-433 | at that capacity, with submits of single bytes, twenty-nine restarts and 32 records leave 2^32 bytes under a total of 0, which is not over capacity |
| Wrapping.ConfiguredCapacityNeverWraps | filesysmgr.cpp:125-135 | with the constructor's capacity cap and submits of at most the unit length the header total is true after every run with at most thirteen restarts in the middle of a record |
| Wrapping.ConfiguredRestartsIff | filesysmgr.cpp:125-135 | at the full capacity that is so for R restarts if and only if R <= 13, and for submits of single bytes if and only if R <= 28 |
| Restarts.SpaceBoundAcrossRestarts | filesysmgr.cpp:421-433 | after any run with R restarts in the middle of a record that cannot wrap the total: at most C/U+1+R closed slots, at most R of them without a length, at most (C/U+1+R)(U+S-1) finished bytes, the bytes on disk bounded accordingly, every length on record and the header total true |
| Restarts.RetentionFloor | filesysmgr.cpp:421-433 | in such a run, once a record has been evicted, the finished records hold at least C-S+2 bytes |
| Restarts.FinishedNeverDrops | filesysmgr.cpp:421-433 | in every run, with submits of any size and any restarts, the number of finished records never goes down |
| Restarts.RunTallies | filesysmgr.cpp:391-395 | as long as no single record can reach 2^32 bytes, every length on record is that of its file, whether or not the total has wrapped |
| Wrapping.RestartsReachBound | filesysmgr.cpp:421-433 | for every C, S and R with (C/U+1+R)(U+S-1) < 2^32 a run ends with C/U+1+R closed records of U+S-1 bytes |
| Outcomes.RunIsDefined | filesysmgr.cpp:261-345 | no signed counter overflows in any run, with submits of any size and any restarts, if the name counters start low enough for one record per unit of bytes, one per restart and one more, and those fit the index file |
| Service.Serve | filesysmgr.cpp:50-444 | the objects of one process after the other, on the same two files, do together what the run says, for any sequence of submits and restarts |
| Service.ServeNew | filesysmgr.cpp:50-444 | from a new index file through any number of processes: each slot read from the bytes names a file that holds its group of submits, the groups are the stream without whole evicted records, earlier files are as they were |
| Runs.IndexAlwaysConsistent | filesysmgr.cpp:261-600 | in every run, restarts included, the bytes of the index file agree among themselves and with the directory: count, numbers, total, names, zero slots |
| Runs.ReopenRoundTrip | filesysmgr.cpp:89-109 | a restart after any run finds the header and the live slots as they were left |
| Runs.NeverEvictsTheOpenRecord | filesysmgr.cpp:421-433 | in every run, restarts included, an eviction takes a closed record and the open one keeps slot, number and file |
| Framing.MachineIsParser | serialport.cpp:251-309 | from any state, the byte machine delivers exactly the frames that the parser finds in what it holds and is fed |
| Framing.FrameLengths | serialport.cpp:280-305 | every frame has the full length and starts with the tag |
| Framing.InStep | serialport.cpp:261-309 | a machine in step delivers every packet once and in order, whatever the payloads |
| Framing.SelfSynchronises | serialport.cpp:261-309 | from any state, with a first packet free of '$', exactly which frames come out: at most the first packet is lost or mixed into one bogus frame, the rest is delivered in order |
| Framing.BackInStepIffTailSkips | serialport.cpp:261-309 | whatever the first packet holds, the machine holds nothing after it if and only if its bytes behind the part taken for the held ones skip |
| Framing.SynchronisesIff | serialport.cpp:261-309 | whatever the first packet holds, the later ones, the next of them free of '$', come out as they are if and only if those bytes skip |
| Framing.NeverSynchronises | serialport.cpp:275-295 | with a '$' at the end of every payload a receiver out of step can miss every packet |
| GpsFix.AtoiStops | serialport.cpp:325-327 | the number read from the zeroed buffer is that of the two bytes copied to it |
| GpsFix.LocalHourIsTwoBytes | serialport.cpp:327-329 | for any two bytes the converted hour is two bytes again |
| GpsFix.DecimalHour | serialport.cpp:327-329 | two digits h become the two digits of (h+8) mod 24 |
| GpsFix.LocalHourIs | serialport.cpp:325-329 | for any two bytes, blanks, signs and other characters included, exactly which two characters the converted hour is; only -9 gives no hour but "-1" |
| GpsFix.OnlyTheHourChanges | serialport.cpp:325-333 | no byte of a frame other than the two of the hour changes |
| GpsFix.FieldsCoverTheFrame | serialport.cpp:349-352 | the four fields given to the board are the whole frame behind the tag, in order, with the lengths of the calls |
| Serialport.Port.Accept | serialport.cpp:261-309 | the switch: after it the cursors are in range again, or the packet is exactly the bytes held and the new one |
| Serialport.Port.Receive | serialport.cpp:253-320 | no write leaves the packet or the buffer; bytes held and frame delivered are those of the machine, the stray copy of the tag leaves no trace |
| Serialport.Port.Deliver | serialport.cpp:321-353 | the four fields of the converted frame go to the board, if there is one |
| Serialport.Port.SubRoutine | serialport.cpp:233-355 | for any sequence of reads the board gets what the parser finds in the bytes, converted |
| Serialport.AllReceived | serialport.cpp:253-259 | successful reads bring every byte, in order |
| Serialport.SpreadIsReceived | serialport.cpp:253-259 | failed reads, any number of them anywhere, change nothing in the bytes that are received |
| Serialport.OneSentence | serialport.cpp:253-353 | "$AHRS:" and 37 bytes, with failed reads anywhere between them, give the board exactly one fix: the time with its hour converted, position, validity and angle, by their places in the sentence |
| Serialport.SentencesDelivered | serialport.cpp:253-353 | so do any number of sentences, in order |
| Serialport.Listen | serialport.cpp:253-353 | on the port object, each of these sentences adds its fix and the earlier ones stay |
| Serialport.GpsSelfSynchronises | serialport.cpp:261-309 | on the GPS line every sentence from the second on arrives in order, after at most one other frame |
| Gate.StepKeepsInv | thread.cpp:181-221 | every step of every thread keeps: lock held by exactly the thread in a locked section, counter equal to resumes minus suspends minus waiting starts, non-negative for a waiter on its way out |
| Gate.SignalIsSafeIff | thread.cpp:201-204 | a signal loses no wakeup, whichever parked threads it wakes, if and only if the counter is negative or at most one thread is parked |
| Gate.SignalsAreSafeIff | thread.cpp:192-221 | for runs of any number of threads: safe against every choice of the signals if and only if at most one thread is parked whenever a resume signals at 0 or above |
| Gate.NeverLostIff | thread.cpp:192-221 | a given run loses no wakeup at any point if and only if each signal at 0 or above reached all parked threads |
| Gate.WakeupsAreNotLost | thread.cpp:192-221 | in every interleaving with one waiter: parked and no resume between increment and signal means a negative counter |
| Gate.WaitReturnsOnlyWhenBalanced | thread.cpp:209-221 | in every interleaving a wait returns 0 only with at least as many resumes as suspends and waiting starts |
| Gate.LockExcludes | criticalsection.h:32-37 | two threads are never both inside a locked section |
| Gate.WaiterStepsAreBounded | thread.cpp:214-220 | while the counter stays non-negative the waiter's own steps are bounded, whatever the others do |
| Gate.WaiterCanStep | thread.cpp:214-220 | with the lock free the waiter's next step is possible and brings it nearer to its return |
| Gate.WaiterReturns | thread.cpp:214-220 | left alone it returns within three steps of its own |
| Gate.OwnerCanStep | thread.cpp:186-205 | the thread that has the lock always has a next step |
| Gate.EveryoneCanStep | thread.cpp:181-221 | no deadlock: in every interleaving each thread can take a step, or wants the lock of one that can |
| Gate.FlagCounts | thread.cpp:186-203 | in every run the counter is the number of increments less the number of decrements |
| Gate.TwoWaitersCanLoseAWakeup | thread.cpp:201-218 | with two waiters, a suspend, two waits and a resume can leave one parked at counter 0 with no signal on its way |
| Cthread.Thread.constructor | thread.cpp:9-15 | the counter starts at 0 with the lock free and every thread outside |
| Cthread.Thread.Others | thread.cpp:181-221 | what the other threads try happens as far as it is possible, all of it if it is a run of the protocol; they can only wake a parked caller, and not touch the counter while the caller has the lock |
| Cthread.Performed | thread.cpp:181-221 | what happens of a sequence of steps is a run, and the whole sequence if that is one |
| Cthread.Thread.Acquire | criticalsection.h:32-37 | the caller gets the lock in one step of its own, at once if it is free, and goes without only if another thread has it and keeps it |
| Cthread.Thread.Suspend | thread.cpp:181-190 | the caller's own steps in the run are lock, decrement, unlock; undisturbed, the call ends with the counter one lower |
| Cthread.Thread.StartWaiting | thread.cpp:39-44 | the caller's own steps in the run are lock, the decrement for the wait, unlock; undisturbed, the call ends with the counter one lower |
| Cthread.Thread.Resume | thread.cpp:192-207 | the caller's own steps in the run are lock, increment, a signal that wakes some parked threads, unlock; undisturbed, the call ends with the counter one higher |
| Cthread.Thread.Wait | thread.cpp:209-221 | when it comes back the counter is not negative, with as many resumes as suspends and waiting starts; its own steps are some rounds of parking and one last test; from counter -k it comes back in k rounds if k resumes meet it parked; without that it is still parked, or another thread keeps the lock |
| Cthread.SuspendedUntilResumed | thread.cpp:181-221 | a thread that suspends itself and waits comes back when another one resumes it, with the counter at 0 |
| Cthread.Thread.StaysParkedOnlyWhileSuspended | thread.cpp:192-221 | a caller still parked with no signal on its way is parked because resumes are missing, if no signal met two parked threads |

## Left out

- FilesysMgr.Manager.Submit: opens and writes are taken to succeed, so the failure exits of the constructor and of new_record_handle are not modelled; it requires a next value for the signed name counter, record number and file offset, whose overflow C leaves undefined (`Outcomes.RunIsDefined` derives this for whole runs from a condition on the operations).
- FilesysMgr.Manager.NewRecordHandle: the exit for a file that cannot be created.
- FilesysMgr.Manager.RemoveFirst: a call with no record, or with the open record as the only one, is excluded; the code makes no such call.
- FilesysMgr.Manager.constructor: an existing index file is one that the program wrote; the loop that prints the slots for debugging has no effect and is omitted.
- Files.RemoveContent: a `total` other than 0 or the length of the file, and a length beyond the end of the file, are excluded; the transfer buffer is the block read. Offsets are not limited to 32 bits here; `RecordLog.Inv` bounds the file.
- The recursive mutex around submit and release, the creation time of a handle and all printing to the console are not modelled.
- A crash between the two writes of an operation is not modelled: restarts happen between operations, with written data on disk.
- The same receiver for the other device is covered by the parameters of `Framing` only; opening and configuring the device is left out.
- `start`, `stop`, `join`, `detach`, `cancel` and priorities of the thread object; the object is taken to be started, so the early returns of suspend, resume and wait do not occur.
- Cthread.Thread.Others: what the other threads try is given beforehand, one finite portion for each point where a call can be interrupted; the calls of one thread are methods, all others are steps of `Gate`.
- boardctl.cpp, eimdata.cpp, hidtemp.cpp, gunparse.cpp, datasocket.cpp and main.cpp, which move data between devices and sockets, and the wiring of the parts.
