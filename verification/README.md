# Verified model of Circle drivers and library code

Circle is a C++ library for programs that run on the Raspberry Pi without an operating system. This project models the
parts of it that hold state machines, ownership protocols and algorithms, and proves what they are for. One module
stands for one component:

- `SdTransfer`, `SdProtocol`, `SdVerdict`, `SdHost`: the SDHOST driver. A request goes through command, data, stop
  command and completion while task and interrupts interleave, because the lock is dropped during polling. A routine
  that polls is a frame on a stack. The environment, an arbitrary function, tells for every step what the registers show; the verdict
  tells what a request ends with by what was seen of it, without the functions that compute that.
- `GenetTx`, `GenetRx`: the descriptor rings of the Ethernet driver, with their 16-bit indices and buffer ownership.
- `OneWireSearch`, `OneWireEnumeration`, `OneWireCrc`: the 1-Wire ROM search over a wired-AND bus, and the CRC routines
  against their bit-serial definitions.
- `CriticalSection`, `Processor`, `SpinLock`: nested critical sections with a shared stack of saved interrupt masks, at
  the granularity of single machine steps, and the cross-core lock on top.
- `PtrList`, `KernelTimer`: the doubly linked list and the kernel timers kept in it by wrapping ticks.
- `HeapAllocator`, `PageAllocator`: carving and free lists.
- `Properties`, `NumberText`, `StringReplace`: the properties file parser and writer, number formatting against
  `strtoul`, and text replacement in a growing buffer.
- `SoundQueue`, `SoundDma`: the sample queue with its format conversion, and the double-buffered DMA.
- `Calendar`, `FatTime`: seconds to date and back, and the FAT time stamp.
- `Modular`, `FreeLists`, `Options`: what several of these share: remainders and multiples, lists of addresses, values
  that may be missing.

Code that works step by step is modelled by classes and methods with loops, each proved against a specification
function; what the code promises is proved about these functions and about the invariants that every method keeps.
Ghost histories count without bound, and every wrapping field is tied to them. Registers, clocks and devices
are arbitrary inputs.

Where the code does not do what it is meant to do, the exact condition is proved:

- One device with a zero family byte on a 1-Wire bus makes every search report the end (`CompleteIffNoZeroFamily`).
- An SDHOST request whose command was never written, because the previous one was still in the register, is signalled
  without an error (`CompleteOrNeverStarted`, `RunCommand`, with the run `NothingSentRun`).
- An expected busy interrupt that comes with an error leaves the request unfinished for good, and nothing else does
  (`IrqSticks`, `StuckForever`, `WaitsOrStuck`, with the runs `BusyErrorRun` and `StaysStuck`).
- A timeout or FIFO error inside a PIO loop does not set an error by itself; the words moved are then fewer than
  those of the buffer (`Delivered` in `RunCommand`, `ReadWords`, with the run `EmptyFifoRun`).
- A stop command is not written when the register is not free, and that is no error either (`Delivered`, `SendStop`).
- A timer with a delay of 2^31 or more fires at once (`DelayKeptIff`, `StartKernelTimer`).
- Allocation sizes just below 2^64 wrap, and a request that wraps into a carved block makes the heap unsound
  (`ExtentEnough`, `ServeKeepsSound`, with the run `WrappedSizeBreaksHeap`).
- The block header keeps 32 bits of the size: blocks of 2^32 bytes and more are not covered by their header, and may
  join the free list of a small bucket (`HeaderCoversRequest`, `ServeKeepsOptimal`, with the runs
  `LargeBlockKeepsNothing` and `LargeBlockJoinsBucket`).
- A tab behind a value is refused, although blanks there are meant to be cut off (`AcceptedIff` tells exactly which
  files are accepted, `TabRefused` is one that is not).
- The seven characters between `9` and `A` are read as digits from 10 on (`WhichDigits`, with the text `ColonIsTen`).
- A load that follows a refused one begins in the state where that one ended (`LoadsAsNewIff`).
- `Get` after `Set` fails from the time on at which the 32-bit year wraps, and `SetDate` loses the week day where its
  32-bit day count wraps (`GetAfterSet`, `WeekDayRestoredIff`, with the runs `YearWrapsRun`
  and `WeekDayWrapsRun`).
- A sound device plays a buffer that was not filled exactly when it is cancelled between the two fills of `Start`,
  the second of which finds no data (`AllPlayed`, with the run `CancelDuringStart`).
- The overflow test of `strtoul` misses a result that wraps but does not fall from digit to digit (`StrtoulRightIff`, with the text
  in `OverflowMissed`).

## Model

| member | source | states |
|---|---|---|
| SdHost.SdHost.RunCommand | addon/SDCard/mmchost.cpp:53-117 | Main result. A command from its check to its result, for every environment: it ends in EINVAL without a request exactly when the data does not fit host or buffer. Otherwise one request is issued, which the controller takes exactly if block size, state machine, command register and response type allow it at the first step; if not, the result is the error of that refusal, none only for a previous command still in the register. A request that was taken is signalled at most once, with the result of that request, which is the error that the polling of its commands and the status registers have shown (EILSEQ for a command that never completed, ETIMEDOUT or EILSEQ for one that failed, but for a CRC error of command 1), and none only if they showed none; success means that every block of the caller's buffer was moved once and in order unless a PIO loop gave up, which takes a hardware error or the timeout, and that the stop command was written unless the register was not free. Without a result after that many steps it waits for polling or for an enabled interrupt, or is stuck since a busy interrupt came with an error. Only a read that was taken writes to the buffer |
| SdHost.CompleteOrNeverStarted | addon/SDCard/sdhost.cpp:661-692 | Main result. What success of a request with data means: everything was delivered as above, or the command was never written because the previous one never completed, and nothing was moved |
| SdVerdict.StepTells | addon/SDCard/sdhost.cpp:883-1141 | Main result. Whatever was seen of a request at the end of its pollings, at interrupts for its data, behind its blocks and at its end decides what it is signalled with: the errors of its command, data and stop command, the response and the byte count, kept by every step unless the request gets stuck |
| SdVerdict.RequestTells | addon/SDCard/sdhost.cpp:1273-1353 | And it holds from the first step of a request on |
| SdVerdict.Judgement | addon/SDCard/mmchost.cpp:80-102 | What Command returns by what was seen: no error only if both pollings ended well, or with a CRC error of command 1, and no status showed an error of the data; otherwise the error of the command before that of the data before that of the stop command |
| SdVerdict.PollingTells | addon/SDCard/sdhost.cpp:936-993 | A polling that ends decides the error of the command, or its response |
| SdVerdict.Reported | addon/SDCard/sdhost.cpp:1417-1433 | A voltage query that is answered by zero is reported as a timeout |
| SdVerdict.BlockTells | addon/SDCard/sdhost.cpp:570-601 | The status behind a block decides the error of the data; without an error there, only a wrong block size is one |
| SdVerdict.NotedTells | addon/SDCard/sdhost.cpp:1051-1064 | So does the status at an interrupt for the data |
| SdVerdict.IrqIsSeen | addon/SDCard/sdhost.cpp:1113-1141 | Main result. Every interrupt for the data is seen, and no other: at a block interrupt with data, or at an enabled data interrupt unless the handler goes to poll before it gets there |
| SdVerdict.FinishDataTells | addon/SDCard/sdhost.cpp:780-806 | The byte count is the whole size if no error was seen, and 0 otherwise |
| SdProtocol.BusyErrorNoted | addon/SDCard/sdhost.cpp:995-1039 | Where a busy interrupt notes which error: a CRC error of the command there, one of the data there if the request has data, a command timeout only if there is nothing else |
| SdProtocol.IsPowerOf2Means | addon/SDCard/sdhost.cpp:163 | The block sizes that are accepted are the powers of two, and 0 |
| SdHost.RequestMeans | addon/SDCard/mmchost.cpp:53-103 | When the controller takes a command, and what is returned if it does not, case by case |
| SdTransfer.HasErrorMeans | addon/SDCard/sdhost.cpp:94-96 | Every bit of the status but those of the three interrupts is an error |
| SdHost.SdHost.RequestSync | addon/SDCard/mmchost.cpp:105-117 | A request from its issue to its result, with all that is said of requests that fit |
| SdHost.SdHost.WaitUntilDone | addon/SDCard/mmchost.cpp:105-117 | Any run of the environment: no request is issued, this one is signalled at most once with the trace it came to, the buffer in use stays its own, and only a read changes it; all steps are made unless it is signalled |
| SdProtocol.IrqSticks | addon/SDCard/sdhost.cpp:1113-1141 | Main result. For every state and interrupt: a request is stuck afterwards if and only if it was before, or waits for busy when the busy part runs and the interrupt is a busy one with an error |
| SdProtocol.WaitsAtBusyPart | addon/SDCard/sdhost.cpp:1113-1131 | Who waits for busy there: who did before the interrupt, or whose last block this block interrupt ends and whose stop command was just written and is a busy one |
| SdProtocol.StuckForever | addon/SDCard/sdhost.cpp:883-1141 | Main result. No interrupt and no polling ever ends a stuck request |
| SdProtocol.ResumeSticks | addon/SDCard/sdhost.cpp:883-1039 | The end of a polling leaves a request stuck exactly if its routine goes on with a busy interrupt that came with an error, and waits for busy again |
| SdProtocol.PolledIsLeft | addon/SDCard/sdhost.cpp:1113-1141 | No interrupt touches a command that is being polled: neither is it retired, nor its request signalled |
| SdProtocol.BusyEndsWait | addon/SDCard/sdhost.cpp:995-1039 | A busy interrupt ends every busy wait |
| SdProtocol.IrqMoves | addon/SDCard/sdhost.cpp:1041-1141 | An interrupt moves exactly one block if no error is pending and more than one is left at a block interrupt, or at an enabled data interrupt that is reached; and none otherwise |
| SdProtocol.WhoBegins | addon/SDCard/sdhost.cpp:1289-1352 | After its first step a request is in progress exactly if the controller takes it, and was signalled with the error of its refusal otherwise |
| SdHost.BusyErrorRun | addon/SDCard/sdhost.cpp:995-1039 | A run that leaves a request stuck: a busy command and a busy interrupt with a timeout |
| SdHost.StaysStuck | addon/SDCard/sdhost.cpp:883-1141 | And it is still not signalled after any number of steps |
| SdHost.NothingSentRun | addon/SDCard/sdhost.cpp:661-692 | A run in which a transfer succeeds although no command was written |
| SdHost.SdHost.WaitsOrStuck | addon/SDCard/sdhost.cpp:1273-1353 | A request that was not signalled yet is being polled or waits for an interrupt that is enabled, if and only if it is not stuck; and it is stuck only after a busy interrupt with an error |
| SdHost.SdHost.AnyStep | addon/SDCard/sdhost.cpp:1113-1141 | Every step of the environment keeps all invariants: requests are conserved, the data moved so far is a beginning of the buffer unless a loop gave up, the commands written are those of the request |
| SdHost.SdHost.IrqHandler | addon/SDCard/sdhost.cpp:1113-1141 | The handler keeps the invariants, and its BUG_ONs never fire; block, busy and data part follow each other, the busy and data part later if the block part begins to poll |
| SdHost.SdHost.AllParts | addon/SDCard/sdhost.cpp:1121-1141 | The three parts of the handler in their order |
| SdHost.SdHost.BlockPart | addon/SDCard/sdhost.cpp:1113-1127 | The block part; where it finds data, the data interrupt is off afterwards |
| SdHost.SdHost.BusyPart | addon/SDCard/sdhost.cpp:1128-1141 | The busy part, which polls, or goes on with the data part |
| SdHost.SdHost.DataPart | addon/SDCard/sdhost.cpp:1132-1141 | The data part counts only while the data interrupt is enabled |
| SdHost.SdHost.Resume | addon/SDCard/sdhost.cpp:883-993 | A polling ends: the command is finished by what the registers show, and the handler it interrupted goes on with the parts it had not run yet; nothing is lost |
| SdHost.SdHost.Request | addon/SDCard/sdhost.cpp:1273-1353 | The request is issued and in progress exactly if the controller takes it; otherwise it is signalled with nothing done; it is never stuck |
| SdHost.SdHost.Admit | addon/SDCard/sdhost.cpp:1293-1352 | A request with a good block size goes through the state machine test and is sent |
| SdHost.SdHost.Begin | addon/SDCard/sdhost.cpp:1306-1352 | Without a ready state machine the request is signalled with EILSEQ; otherwise its command is sent |
| SdHost.SdHost.SendMain | addon/SDCard/sdhost.cpp:1306-1352 | The main command is written and polled unless it waits for busy, or the request is signalled with the refusal |
| SdHost.SdHost.SendCommand | addon/SDCard/sdhost.cpp:661-778 | The command is written if the register is free and its response type supported; if not, the request is signalled, without an error for a register in use and with EINVAL for the response type |
| SdHost.SdHost.StillNew | addon/SDCard/sdhost.cpp:683-692 | The previous command never completed |
| SdHost.SdHost.NotSupported | addon/SDCard/sdhost.cpp:716-722 | The response type is not supported |
| SdHost.SdHost.IssueMain | addon/SDCard/sdhost.cpp:722-777 | A main command is active with its data set up over the buffer of the request |
| SdHost.SdHost.IssueStop | addon/SDCard/sdhost.cpp:722-777 | A stop command is active, and the data stays as it was |
| SdHost.SdHost.PrepareData | addon/SDCard/sdhost.cpp:608-659 | The sanity BUG_ONs hold; the iterator stands at the start of the buffer, the block count is that of the data, only the data interrupt is enabled |
| SdHost.SdHost.FinishData | addon/SDCard/sdhost.cpp:780-806 | Both interrupts are off and the data phase is over; with the command still in progress nothing else happens, otherwise the transfer is completed |
| SdHost.SdHost.CloseData | addon/SDCard/sdhost.cpp:780-798 | The byte count is recorded; the transfer may be completed exactly when no command is in progress |
| SdHost.SdHost.RecordBytes | addon/SDCard/sdhost.cpp:789-795 | The byte count is 0 with an error and the whole size without, when all blocks have been moved |
| SdHost.SdHost.TransferComplete | addon/SDCard/sdhost.cpp:808-838 | Its BUG_ONs hold; the stop command is sent, or the request ends when the controller is idle |
| SdHost.SdHost.EndTransfer | addon/SDCard/sdhost.cpp:808-838 | Without a stop command the request is signalled, with a timeout exactly when the controller does not become idle |
| SdHost.SdHost.SendStop | addon/SDCard/sdhost.cpp:825-834 | The stop command is written and polled unless it waits for busy; the request is signalled exactly when it cannot be written |
| SdHost.SdHost.WaitTransferComplete | addon/SDCard/sdhost.cpp:373-408 | The data gets a timeout exactly when the controller does not become idle |
| SdHost.SdHost.AfterPolling | addon/SDCard/sdhost.cpp:883-993 | A command that never completed or failed ends the request with exactly the error of its kind (a CRC error of command 1 is ignored); otherwise it has succeeded |
| SdHost.SdHost.FailCommand | addon/SDCard/sdhost.cpp:902-951 | The current command gets the error and the request is signalled with it |
| SdHost.SdHost.Proceed | addon/SDCard/sdhost.cpp:954-993 | The response is stored; after the stop command the request is signalled, after the main command it is retired |
| SdHost.SdHost.Retire | addon/SDCard/sdhost.cpp:985-992 | Without data the request is signalled; with complete data the transfer is completed; data still being moved keeps the request active |
| SdHost.SdHost.BusyIrq | addon/SDCard/sdhost.cpp:995-1039 | An expected busy interrupt begins polling without an error, and with one stores it; any other changes nothing |
| SdHost.SdHost.NoteBusyError | addon/SDCard/sdhost.cpp:1014-1031 | Which error goes to the command and which to the data |
| SdHost.SdHost.NoteDataError | addon/SDCard/sdhost.cpp:1051-1064 | The data gets the error of its kind, and nothing else changes |
| SdHost.SdHost.DataIrq | addon/SDCard/sdhost.cpp:1041-1079 | Nothing without data; otherwise its errors are noted and the data served |
| SdHost.SdHost.ServeData | addon/SDCard/sdhost.cpp:1066-1078 | Failed data is finished; a write moves its first block and goes over to the block interrupt; a read moves the next block |
| SdHost.SdHost.ReadNextBlock | addon/SDCard/sdhost.cpp:1073-1078 | One more block is read; after the last one or an error the data phase ends |
| SdHost.SdHost.BlockIrq | addon/SDCard/sdhost.cpp:1081-1111 | Nothing without data; otherwise its errors are noted and the countdown served |
| SdHost.SdHost.ServeBlock | addon/SDCard/sdhost.cpp:1105-1110 | Its BUG_ON holds; counts down and moves the next block, or ends the data phase |
| SdHost.SdHost.TransferPio | addon/SDCard/sdhost.cpp:570-597 | One more block is moved in place and in order; the error is the one the status shows afterwards, or EINVAL for a block size that is no multiple of four |
| SdHost.SdHost.MoveBlock | addon/SDCard/sdhost.cpp:570-578 | The words that went through the data register so far are a beginning of the buffer unless a loop gave up; the first loop that did is recorded |
| SdHost.SdHost.TaskletFinish | addon/SDCard/sdhost.cpp:1386-1440 | The request is signalled once with mrq, cmd and data cleared, and came to a good outcome; a zero answer to a voltage query is reported as a timeout |
| SdHost.PrepareRequest | addon/SDCard/mmchost.cpp:119-157 | Accepts a request exactly when its block size, block count and total size are within the limits and the total is the length of the buffer; everything else is EINVAL |
| SdTransfer.Transfer.MiterNext | addon/SDCard/mmchost.cpp:179-194 | The iterator moves on by what was consumed, until nothing is left |
| SdTransfer.Transfer.ReadBlockPio | addon/SDCard/sdhost.cpp:410-488 | Exactly the words that the FIFO offered in its turns are read, in order, to the place of the block; fewer than the block only when the loop gave up on a hardware error or after the timeout; nothing outside is written, the iterator moves on by one block; EINVAL exactly for sizes that are no multiple of four. The loop ends |
| SdTransfer.Transfer.WriteBlockPio | addon/SDCard/sdhost.cpp:490-568 | The same for writing: the words that go out are those of the block, in order |
| SdTransfer.Transfer.ReadWords | addon/SDCard/sdhost.cpp:438-481 | The words move turn by turn as the FIFO offers them, without gap or overlap; fewer than asked for exactly when the loop gave up, and then the last turn shows the hardware error or is past the timeout |
| SdTransfer.Transfer.WriteWords | addon/SDCard/sdhost.cpp:518-561 | Likewise for the words that go out |
| SdTransfer.Transfer.Burst | addon/SDCard/sdhost.cpp:439-473 | One turn: a burst exactly when the FIFO is ready for it; otherwise the loop gives up exactly on a hardware error outside the expected states, or when more than the timeout has passed |
| SdTransfer.Transfer.ReadBurst | addon/SDCard/sdhost.cpp:439-480 | One turn of the read loop, with the words in place |
| SdTransfer.Transfer.WriteBurst | addon/SDCard/sdhost.cpp:519-560 | One turn of the write loop |
| SdTransfer.Transfer.Drain | addon/SDCard/sdhost.cpp:477-480 | A burst of words from the data register into the buffer, in place |
| SdTransfer.Transfer.Fill | addon/SDCard/sdhost.cpp:557-560 | A burst of words from the buffer into the data register |
| SdTransfer.EmptyFifoRun | addon/SDCard/sdhost.cpp:410-488 | From a FIFO that stays empty a block is read without a word and without an error |
| GenetTx.RingsPartition | lib/bcm54213.cpp:1242-1299 | The five rings use disjoint control blocks and together all 256 |
| GenetTx.CountersAgree | lib/bcm54213.cpp:712-774 | For every history, free_bds plus the 16-bit difference of the indices is the size, and write and clean pointer are the indices modulo the size, in spite of the wrap |
| GenetTx.BuffersAreFramesInFlight | lib/bcm54213.cpp:1358-1395 | The buffers in memory are exactly those of the frames in flight, one each: every buffer is freed once, and not before the hardware consumed its frame |
| GenetTx.PaddedIs | lib/bcm54213.cpp:742-748 | A frame goes out as it is, followed by zeros up to 60 bytes |
| GenetTx.TransmitsWhatWasSent | lib/bcm54213.cpp:742-761 | What the hardware fetches for a frame is the padded frame that was queued, whatever happened to the rings in between |
| GenetTx.SendKeepsConsistent | lib/bcm54213.cpp:712-774 | Queueing a frame keeps all five rings consistent |
| GenetTx.TransmitKeepsConsistent | lib/bcm54213.cpp:1358-1385 | So does a frame consumed by the hardware |
| GenetTx.FreeKeepsConsistent | lib/bcm54213.cpp:1358-1395 | So does freeing the buffer at the clean pointer, which is the oldest frame in flight |
| GenetTx.CountKeepsConsistent | lib/bcm54213.cpp:1381-1384 | So does adding the number of freed blocks to the counters |
| GenetTx.Genet.constructor | lib/bcm54213.cpp:1242-1342 | After initialisation all rings are empty and consistent |
| GenetTx.Genet.InitTxQueues | lib/bcm54213.cpp:1242-1299 | Sets up four priority rings and the default ring |
| GenetTx.Genet.InitTxRing | lib/bcm54213.cpp:1302-1342 | Sets up one ring and leaves the others as they are |
| GenetTx.Genet.SendFrame | lib/bcm54213.cpp:712-774 | Sends on the mapped queue; fails exactly when fewer than two blocks are free; one more frame is in the history, byte by byte the one given and zeros up to 60 bytes |
| GenetTx.Genet.SendOn | lib/bcm54213.cpp:729-774 | A frame is queued on a ring, or the state is unchanged if there is no room |
| GenetTx.Genet.PutFrame | lib/bcm54213.cpp:750-766 | The block at the write pointer gets buffer and descriptor, and the counters advance |
| GenetTx.Genet.GetTxcb | lib/bcm54213.cpp:1344-1356 | Yields the block at the write pointer, which moves on and wraps at the end of the ring |
| GenetTx.Genet.Transmit | lib/bcm54213.cpp:758-769 | The hardware, as seen from the driver: the next frame goes out as it was queued |
| GenetTx.Genet.TxReclaim | lib/bcm54213.cpp:1358-1385 | Frees exactly the frames consumed since the last call, and tells how many |
| GenetTx.Genet.AddFreed | lib/bcm54213.cpp:1381-1382 | The freed blocks are free again and the consumer index is the one read, which leaves all rings consistent |
| GenetTx.Genet.FreeReady | lib/bcm54213.cpp:1366-1379 | The loop over the frames that are ready |
| GenetTx.Genet.FreeNext | lib/bcm54213.cpp:1372-1379 | The oldest frame is freed and the clean pointer moves on |
| GenetTx.Genet.FreeAtCleanPtr | lib/bcm54213.cpp:1373-1378 | The block at the clean pointer is freed and the pointer wraps at the end of the ring |
| GenetTx.Genet.FreeTxCb | lib/bcm54213.cpp:1387-1395 | The buffer of a block is freed, if it has one |
| GenetTx.Genet.InterruptHandler0 | lib/bcm54213.cpp:1553-1570 | Reclaims the default ring when asked, and no other ring |
| GenetTx.Genet.InterruptHandler1 | lib/bcm54213.cpp:1573-1594 | Reclaims exactly the priority rings whose status bit is set |
| GenetTx.FillBuffer | lib/bcm54213.cpp:742-748 | The buffer begins with the frame, padded with zeros to 60 bytes |
| GenetRx.Receiver.constructor | lib/bcm54213.cpp:1431-1480 | Every one of the 256 control blocks owns one buffer |
| GenetRx.Receiver.ReceiveFrame | lib/bcm54213.cpp:776-885 | Takes the oldest frame in spite of the 16-bit wrap; delivers it exactly when it is whole and without error and a new buffer was to be had: every byte from the third on, without the checksum if the hardware forwards one; and drops it otherwise. All frames that ever found the ring full have been counted, and the hardware counter was cleared before it could overflow |
| GenetRx.Receiver.CountDiscards | lib/bcm54213.cpp:787-802 | The counter of the driver catches up with that of the hardware; both are cleared from 0xC000 on, and what was cleared plus what is shown is every discarded frame |
| GenetRx.Receiver.TakeFrame | lib/bcm54213.cpp:808-882 | The oldest frame leaves the ring, delivered or dropped, and the ring stays consistent |
| GenetRx.Receiver.Refill | lib/bcm54213.cpp:1492-1511 | The block gets the new buffer, the old contents go to the caller, all other frames still wait |
| GenetRx.Receiver.Extract | lib/bcm54213.cpp:825-868 | Delivers the bytes of an intact frame behind the two for alignment and before a checksum, and nothing of a damaged one |
| GenetRx.Receiver.Advance | lib/bcm54213.cpp:870-881 | Read pointer and consumer index advance and wrap |
| GenetRx.Receiver.Produce | lib/bcm54213.cpp:787-809 | The hardware, as seen from the driver: a frame is put into the next block |
| GenetRx.Receiver.Discard | lib/bcm54213.cpp:787-793 | The hardware, as seen from the driver: a frame that finds the ring full is counted |
| GenetRx.ProduceKeepsConsistent | lib/bcm54213.cpp:787-809 | A received frame keeps the ring consistent |
| GenetRx.ExchangeKeepsOwned | lib/bcm54213.cpp:1492-1521 | Exchanging a buffer keeps one buffer for every block and leaks none |
| GenetRx.AdvanceKeepsConsistent | lib/bcm54213.cpp:870-882 | Taking a frame keeps the ring consistent |
| CriticalSection.StepKeepsGood | lib/synchronize64.cpp:49-90 | Main result. No step of EnterCritical, LeaveCritical, Acquire, Release or the interrupt stubs, with interrupts at any point that the mask allows, corrupts the shared stack of saved masks |
| CriticalSection.RunIsGood | lib/synchronize64.cpp:49-90 | So every state of every run is good |
| CriticalSection.MaskRestored | lib/synchronize64.cpp:76-90 | Main result. A context that is back in the sections it was in before has the very interrupt mask it had before |
| CriticalSection.ReturnRestores | lib/synchronize64.cpp:49-90 | Whenever interrupts give the same contexts back, mask, level and all saved masks below it are as they were |
| CriticalSection.MaskOfSections | lib/synchronize64.cpp:26-42 | The mask and the execution level of a running context are determined by the sections it is in |
| CriticalSection.StoredKeepsGood | lib/synchronize64.cpp:63-66 | Writing the saved mask into the stack and raising the level pushes it |
| CriticalSection.FiqsOffKeepsGood | lib/synchronize64.cpp:84-87 | Lowering the level pops exactly the mask of the section that is left |
| CriticalSection.InterruptKeepsGood | lib/exceptionstub64.S:97-103 | An interrupt may arrive at every step |
| CriticalSection.ReturnKeepsGood | lib/exceptionstub64.S:178-185 | Returning from it gives the interrupted context its mask back |
| Processor.Processor.EnterCritical | lib/synchronize64.cpp:49-74 | Line by line on the machine fields, with any run of interrupts behind every line: the context is in one more section, and the mask is that of the target level |
| Processor.Processor.SaveFlags | lib/synchronize64.cpp:55-66 | The mask of the running context is on the stack of saved masks, although interrupts may have used the stack between any two lines |
| Processor.Processor.LeaveCritical | lib/synchronize64.cpp:76-90 | Line by line, with any run of interrupts behind every line: the section entered last is left, and the mask is the one from before it |
| SpinLock.MutualExclusion | lib/spinlock.cpp:43-123 | Main result. In every run of any number of cores no two contexts hold the same lock |
| SpinLock.FreshMachine | lib/spinlock.cpp:26-41 | Any number of fresh cores with free locks is a good machine, so the runs exist |
| SpinLock.StepKeepsMachine | lib/spinlock.cpp:43-123 | Every step of every core keeps exclusion and the consistency of all cores |
| SpinLock.SpinsForOtherCore | lib/spinlock.cpp:43-86 | Main result. A context that spins waits for another core; no context of its own core, interrupted or not, holds that lock |
| SpinLock.TakeKeepsExclusive | lib/spinlock.cpp:50-85 | The compare-and-set gives the lock to one section |
| SpinLock.LeaveKeepsExclusive | lib/spinlock.cpp:88-122 | Releasing takes it from that section only |
| KernelTimer.FiredIffDue | lib/timer.cpp:452-487 | Main result. A timer that was not cancelled has fired only if its tick has come and is pending only if its tick has not passed; after every poll both hold the other way round as well |
| KernelTimer.DelayKeptIff | lib/timer.cpp:452-466 | The wrapping test keeps a delay if and only if it is below 2^31: it fails at every tick before the due one, and holds at that one |
| KernelTimer.StartKeeps | lib/timer.cpp:377-427 | Starting a timer, with delay 0 too, keeps the order of a stable priority queue over unbounded time |
| KernelTimer.FireKeeps | lib/timer.cpp:452-487 | Firing the first timer that is due keeps it |
| KernelTimer.CancelKeeps | lib/timer.cpp:429-450 | Cancelling any pending timer keeps it |
| KernelTimer.TickKeeps | lib/timer.cpp:526-536 | The clock may advance while nothing is overdue |
| KernelTimer.InsertedOrdered | lib/timer.cpp:398-422 | A new timer comes behind all that are due as early |
| KernelTimer.LeadingWithout | lib/timer.cpp:429-450 | Cancelling a timer takes just that one out of those that are due |
| KernelTimer.Timers.constructor | lib/timer.cpp:377-427 | No timers at tick 0 |
| KernelTimer.Timers.StartKernelTimer | lib/timer.cpp:377-427 | For every delay: below 2^31 the timer is due exactly delay ticks from now and stands at its place in the queue; from 2^31 on it stands somewhere, and the test of the poll takes it for elapsed at once |
| KernelTimer.Timers.InsertTimer | lib/timer.cpp:398-422 | The timer is linked in where the loop says, all others keep their order |
| KernelTimer.Timers.FindPlace | lib/timer.cpp:398-413 | The loop over the list finds the place of the timer by comparing wrapping ticks |
| KernelTimer.Timers.CancelKernelTimer | lib/timer.cpp:429-450 | A pending timer is cancelled; nothing happens to any other, and nothing becomes overdue |
| KernelTimer.Timers.PollKernelTimers | lib/timer.cpp:452-487 | Fires exactly the timers that are due and that no handler cancels before their turn, in order, while handlers start and cancel timers |
| KernelTimer.Timers.FireFirst | lib/timer.cpp:457-484 | One turn of the poll: the first timer is unhooked and its handler run |
| KernelTimer.Timers.Unhook | lib/timer.cpp:468-470 | The element is taken from the list and the next one kept |
| KernelTimer.Timers.RunHandler | lib/timer.cpp:472-483 | Whatever timers a handler starts or cancels, those that are still due stay at the front, without the cancelled ones |
| KernelTimer.Timers.TestIsExact | lib/timer.cpp:463-466 | The wrapping comparison with the present tick tells exactly whether a timer is due |
| KernelTimer.Timers.InterruptHandler | lib/timer.cpp:526-536 | One more tick; every timer due at that tick fires at it unless a handler cancels it, none earlier or later; a timer with delay 0 fires here |
| PtrList.List.InsertBefore | lib/ptrlist.cpp:66-102 | The links are those of the list with the pointer inserted before the element |
| PtrList.List.InsertAfter | lib/ptrlist.cpp:104-139 | Likewise behind the element, or into the empty list |
| PtrList.List.Remove | lib/ptrlist.cpp:141-173 | The links are those of the list without the element |
| PtrList.List.Find | lib/ptrlist.cpp:175-188 | The first element with that pointer, or none if the list does not hold it |
| PtrList.List.GetFirst | lib/ptrlist.cpp:45-48 | The first element, or null |
| PtrList.List.GetNext | lib/ptrlist.cpp:50-56 | The element behind, or null |
| PtrList.List.GetPtr | lib/ptrlist.cpp:58-64 | The pointer at the place of the element in the list |
| HeapAllocator.LiveBlocks | lib/heapallocator.cpp:63-145 | Main result. Any two blocks in use are disjoint, aligned, inside the region and as large as was asked for |
| HeapAllocator.BlocksDisjoint | lib/heapallocator.cpp:97-134 | Blocks that were ever carved never overlap |
| HeapAllocator.ExtentEnough | lib/heapallocator.cpp:101-105 | The 64-bit size computation gives a block that is large enough exactly for sizes below 2^64 - 15 |
| HeapAllocator.ServeKeepsSound | lib/heapallocator.cpp:63-145 | Main result. A request keeps the heap sound if and only if its size does not wrap into a carved block without room: each block is in use, on the free list of its own bucket, or lost because no bucket has its size |
| HeapAllocator.WrappedSizeBreaksHeap | lib/heapallocator.cpp:97-134 | A run in which that fails: with 16 bytes left, a request for 2^64 - 1 bytes gets a block without room |
| HeapAllocator.ServeGrants | lib/heapallocator.cpp:63-145 | A block that is given out was not in use, and all other blocks keep their place and size |
| HeapAllocator.ServeIs | lib/heapallocator.cpp:63-145 | Main result. What a request comes to: a free block of the first bucket that is large enough; otherwise a new block of the smallest multiple of 16 bytes, which ends no later than the reserve begins; if it would, the request fails, which gives up the reserve and changes nothing else |
| HeapAllocator.ServeKeepsReserved | lib/heapallocator.cpp:97-134 | Whatever is requested, the reserve stays free until a request fails |
| HeapAllocator.ReserveGivenUp | lib/heapallocator.cpp:97-134 | A run in which a request fails and the next one is served out of what was the reserve |
| HeapAllocator.ReleaseKeepsSound | lib/heapallocator.cpp:182-216 | Freeing a block in use keeps the heap sound |
| HeapAllocator.ReleaseKeepsReserved | lib/heapallocator.cpp:182-216 | Freeing takes just that block out of use, and leaves the region as it is |
| HeapAllocator.ResizeKeepsSound | lib/heapallocator.cpp:147-180 | So does keeping a block that is large enough |
| HeapAllocator.ServeKeepsOptimal | lib/heapallocator.cpp:72-135 | Main result. Every bucket has carved as many blocks as were once in use at the same time, and a request keeps that if and only if it does not carve a block whose size modulo 2^32 is that of a bucket with free blocks; requests below 2^32 bytes never do |
| HeapAllocator.LargeBlockJoinsBucket | lib/heapallocator.cpp:72-135 | A run in which that fails: with a free block of 64 bytes, a request for 2^32 + 64 bytes |
| HeapAllocator.ReleaseKeepsOptimal | lib/heapallocator.cpp:193-209 | Freeing keeps that |
| HeapAllocator.CarvedIsFreePlusLive | lib/heapallocator.cpp:63-216 | The blocks of a bucket are those on its free list and those in use |
| HeapAllocator.HeaderCoversRequest | lib/heapallocator.cpp:133-134 | The 32-bit size in the header covers the request if and only if that was below 2^32 bytes |
| HeapAllocator.LargeBlockKeepsNothing | lib/heapallocator.cpp:133-179 | A run in which that fails: the header of a block for 2^32 bytes says 0, so growing it would keep none of its bytes |
| HeapAllocator.Allocator.constructor | lib/heapallocator.cpp:27-45 | The buckets are the configured ones and the free lists are empty |
| HeapAllocator.Allocator.Setup | lib/heapallocator.cpp:51-56 | The region begins empty and sound |
| HeapAllocator.Allocator.Allocate | lib/heapallocator.cpp:63-145 | Does what the specification of a request says, state and result: a new block ends before the reserve, a failure changes nothing but the reserve, the block was not in use, all others keep place, size and bytes; the allocator is valid again if and only if the size did not wrap, and optimal again under the condition above, so any sequence of calls keeps both |
| HeapAllocator.Allocator.FindBucket | lib/heapallocator.cpp:72-88 | The first bucket that is large enough |
| HeapAllocator.Allocator.Take | lib/heapallocator.cpp:90-96 | The first block of the free list is unlinked |
| HeapAllocator.Allocator.Carve | lib/heapallocator.cpp:97-139 | A new block is carved if it fits below the reserve; otherwise the reserve is given up |
| HeapAllocator.Allocator.Free | lib/heapallocator.cpp:182-216 | Does what the specification of a release says, and keeps the allocator valid and optimal |
| HeapAllocator.Allocator.ReAllocate | lib/heapallocator.cpp:147-180 | Allocates, frees, keeps the block, or moves it with all bytes that were asked for if these were fewer than 2^32, and with as many as its header tells otherwise; the bytes of all other blocks stay; the old block is freed, and kept when there is no memory; the allocator stays valid, and optimal for sizes below 2^32 |
| HeapAllocator.Allocator.Grow | lib/heapallocator.cpp:169-179 | The case of a block that must move, with its bytes; those of all other blocks stay |
| PageAllocator.Pager.constructor | lib/pageallocator.cpp:26-45 | The region is aligned inwards to pages and empty |
| PageAllocator.Pager.Allocate | lib/pageallocator.cpp:53-96 | Gives out an aligned page of the region that is not in use; fails exactly when no page is free and none can be carved |
| PageAllocator.Pager.TakeFirst | lib/pageallocator.cpp:69-75 | The first free page is reused |
| PageAllocator.Pager.CarvePage | lib/pageallocator.cpp:76-91 | A page is carved only when none is free |
| PageAllocator.Pager.Free | lib/pageallocator.cpp:99-124 | The page is put on the free list |
| PageAllocator.Pager.UsedUpIsPeak | lib/pageallocator.cpp:53-124 | How far the region is used up is the highest number of pages in use at once, exactly in runs without a failed allocation |
| PageAllocator.CarvedIsFreePlusLive | lib/pageallocator.cpp:53-124 | Pages ever carved are those that are free and those in use |
| Properties.RoundTrip | addon/Properties/propertiesfile.cpp:34-103 | Main result. For every text that Load accepts, saving the properties and loading the result gives the same ordered list with distinct names |
| Properties.AcceptedIff | addon/Properties/propertiesbasefile.cpp:54-208 | Main result. A new parser accepts exactly the files that consist, carriage returns apart, of empty lines, comments, and names with what separates them from their values, within the lengths; the list is what these lines give, of each name the first |
| Properties.ReadForm | addon/Properties/propertiesbasefile.cpp:54-208 | What every form of line does from a start state |
| Properties.FormOf | addon/Properties/propertiesbasefile.cpp:54-208 | A line that is accepted has one of these forms |
| Properties.CollectedMeans | addon/Properties/properties.cpp:186-209 | A property of a line is kept exactly if no line before has given one of that name, behind those that were kept |
| Properties.ReturnsIgnored | addon/Properties/propertiesbasefile.cpp:56-59 | Carriage returns may stand anywhere |
| Properties.TabRefused | addon/Properties/propertiesbasefile.cpp:158-191 | A tab behind a value is refused, although blanks there are meant to be cut off |
| Properties.AcceptedLeavesStart | addon/Properties/propertiesbasefile.cpp:54-208 | An accepted load leaves the parser in its start state and every property storable |
| Properties.LoadsAsNewIff | addon/Properties/propertiesfile.cpp:34-73 | Load does not reset the parser, so it works as with a new parser if and only if the parser waits for a name |
| Properties.ReadLine | addon/Properties/propertiesbasefile.cpp:54-208 | A written line is read back as its property |
| Properties.ReadSaved | addon/Properties/propertiesfile.cpp:75-103 | A written file is read back as its list |
| Properties.PropertiesFile.constructor | addon/Properties/propertiesbasefile.cpp:33-38 | A fresh parser |
| Properties.PropertiesFile.Parse | addon/Properties/propertiesbasefile.cpp:54-208 | The fields and character buffers follow the parser for every character, within the buffers; a refused character changes nothing |
| Properties.PropertiesFile.ParseWaitForName | addon/Properties/propertiesbasefile.cpp:63-97 | The state before a name |
| Properties.PropertiesFile.ParseCopyName | addon/Properties/propertiesbasefile.cpp:99-126 | The state inside a name |
| Properties.PropertiesFile.ParseWaitForValue | addon/Properties/propertiesbasefile.cpp:128-156 | The state between name and value |
| Properties.PropertiesFile.ParseCopyValue | addon/Properties/propertiesbasefile.cpp:158-191 | The state inside a value |
| Properties.PropertiesFile.ParseIgnoreComment | addon/Properties/propertiesbasefile.cpp:193-200 | The state inside a comment |
| Properties.PropertiesFile.Trim | addon/Properties/propertiesbasefile.cpp:161-170 | Blanks at the end of the value are cut off in place |
| Properties.PropertiesFile.Load | addon/Properties/propertiesfile.cpp:34-73 | The old properties are removed; then reading in pieces does what reading the whole text does, up to a read error or a refused character, which it reports like a file that cannot be opened; and nothing else fails |
| Properties.PropertiesFile.ReadAll | addon/Properties/propertiesfile.cpp:47-70 | The loop over the pieces parses their text, and succeeds exactly when all of it was accepted and no read failed |
| Properties.PropertiesFile.ParsePiece | addon/Properties/propertiesfile.cpp:58-66 | One piece is parsed character by character |
| Properties.PropertiesFile.Save | addon/Properties/propertiesfile.cpp:75-103 | Writes one line for every property, in order; when the file cannot be created, written or closed it says so, and what it wrote is a beginning of that text |
| Properties.PropertiesFile.AddProperty | addon/Properties/properties.cpp:186-209 | The first property of a name counts |
| Properties.PropertiesFile.Lookup | addon/Properties/properties.cpp:245-258 | The first property of that name, or none |
| Properties.PropertiesFile.RemoveAll | addon/Properties/properties.cpp:168-184 | No properties are left |
| Properties.PropertiesFile.GetFirst | addon/Properties/properties.cpp:211-216 | All properties remain to be visited |
| Properties.PropertiesFile.GetNext | addon/Properties/properties.cpp:218-223 | One property fewer remains, so GetFirst and GetNext visit each property once, in order |
| NumberText.RoundTrip | lib/string.cpp:596-669 | Main result. For every 64-bit number and every base from 2 to 36, strtoul reads back what ntoa wrote, with the end pointer at the terminator |
| NumberText.NoLeadingZero | lib/string.cpp:596-631 | No numeral but that of 0 begins with a zero |
| NumberText.DigitCount | lib/string.cpp:596-669 | From base 8 on, 22 digits are enough |
| NumberText.DigitsValue | lib/string.cpp:596-669 | The digits have the value of the number, and each is below the base |
| NumberText.FindDivisor | lib/string.cpp:600-610 | The divisor is the highest power that does not exceed the number, and its computation never overflows |
| NumberText.Ntoa | lib/string.cpp:596-631 | Writes exactly the numeral and the terminator into the buffer |
| NumberText.DigitCharIs | lib/string.cpp:612-625 | The character of every digit, in both cases |
| NumberText.Strtoul | lib/util.cpp:424-554 | Spaces, sign, prefix, digits and overflow give the number and end that the specification says |
| NumberText.SignedRoundTrip | lib/util.cpp:424-554 | A numeral behind a sign is read back as the number or as its negative modulo 2^64 |
| NumberText.HexRoundTrip | lib/util.cpp:458-489 | A hexadecimal numeral behind its prefix is read back with base 16 given, or none |
| NumberText.DecimalRoundTrip | lib/util.cpp:458-489 | Without a base a numeral without prefix is decimal |
| NumberText.OctalRoundTrip | lib/util.cpp:458-489 | Without a base a numeral behind a zero is octal |
| NumberText.PrefixContradicts | lib/util.cpp:462-469 | With any other base given, the hexadecimal prefix is refused |
| NumberText.SpacesSkipped | lib/util.cpp:443-447 | Any of the six white space characters in front of any text moves the end and changes nothing else |
| NumberText.NumeralBehindSpaces | lib/util.cpp:424-554 | A numeral is read back behind any white space |
| NumberText.NumeralFollowed | lib/util.cpp:491-553 | A numeral is read back whatever follows, but for a zero that looks like the prefix |
| NumberText.NothingToRead | lib/util.cpp:443-553 | A text that begins with none of white space, sign and digit yields 0 at its beginning |
| NumberText.WhichDigits | lib/util.cpp:493-515 | The characters that are digits of a base, with their values: digits, letters, and the seven characters between 9 and A from 10 on |
| NumberText.ColonIsTen | lib/util.cpp:493-515 | So a colon is read as the hexadecimal number 10 |
| NumberText.NumeralParsed | lib/util.cpp:491-553 | Main result. For every numeral without a leading zero, of any length: its value modulo 2^64 if the value modulo 2^64 never falls from digit to digit, and an overflow at the first digit where it does |
| NumberText.SmallNeverFalls | lib/util.cpp:517-532 | No number below 2^64 falls anywhere |
| NumberText.StrtoulRightIff | lib/util.cpp:424-554 | So the result is the number, or the largest one for a number of 2^64 and more, if and only if the number is below 2^64, falls somewhere, or wraps to just that largest one |
| NumberText.OverflowMissed | lib/util.cpp:517-532 | A text for which that fails: 23058430092136939520, ten times 2^61, is read as 2^62 |
| NumberText.ReadDigits | lib/util.cpp:491-553 | Digits are read up to the first other character or to an overflow; the sign applies only if there were digits and no overflow |
| StringReplace.ReplacedIsJoin | lib/string.cpp:152-203 | Main result. The text is split at the leftmost occurrences that do not overlap; the result is these parts joined by the new text, and the count is the number of the joints |
| StringReplace.SplitExists | lib/string.cpp:152-203 | Every text can be split so |
| StringReplace.SplitIsUnique | lib/string.cpp:152-203 | And in no other way |
| StringReplace.CString.Replace | lib/string.cpp:152-203 | The string in the growing buffer becomes the replaced text and the count is returned; an empty old text changes nothing |
| StringReplace.CString.ReplaceNext | lib/string.cpp:170-196 | One candidate: it is replaced, or its first character is taken over |
| StringReplace.Compare | lib/string.cpp:177-186 | Whether the old text stands at a position |
| StringReplace.CString.ReserveSpace | lib/string.cpp:568-594 | What was written stays, and there is room for the characters and the terminator |
| StringReplace.CString.PutChar | lib/string.cpp:547-555 | The character is appended that many times |
| StringReplace.CString.PutString | lib/string.cpp:557-566 | The text is appended, and terminated |
| StringReplace.Strchr | lib/util.cpp:321-334 | The first position of a character, or none |
| SoundQueue.SampleInRange | lib/soundbasedevice.cpp:315-323 | Main result. Every sample for pulse width hardware lies in [0, RangeMax) |
| SoundQueue.FastPathConverts | lib/soundbasedevice.cpp:150-170 | Copying 16-bit stereo is the same as converting it frame by frame |
| SoundQueue.SoundDevice.constructor | lib/soundbasedevice.cpp:24-107 | The queue holds the bytes of the given time, rounded up, and one more; it is empty |
| SoundQueue.SoundDevice.Write | lib/soundbasedevice.cpp:139-219 | As many whole frames as there are and as fit are converted and appended to the queue, whose contents stay a whole number of hardware frames; the result is the bytes they took. Over any run, what was converted is what the hardware took followed by what the queue holds |
| SoundQueue.SoundDevice.WriteFast | lib/soundbasedevice.cpp:155-170 | The path without conversion |
| SoundQueue.SoundDevice.WriteSlow | lib/soundbasedevice.cpp:171-214 | The path with conversion, frame by frame |
| SoundQueue.SampleKept | lib/soundbasedevice.cpp:269-329 | Signed hardware gets the highest bits of a sample, all of them if it is as wide as what was written, and pulse width hardware its position in the range, rounded down |
| SoundQueue.Unsigned8Sample | lib/soundbasedevice.cpp:269-329 | Main result. The bytes that every hardware gets for an 8-bit sample, of which 128 is silence |
| SoundQueue.Signed16Sample | lib/soundbasedevice.cpp:269-329 | The bytes that every hardware gets for a 16-bit sample |
| SoundQueue.Signed24Sample | lib/soundbasedevice.cpp:269-329 | The bytes that every hardware gets for a 24-bit sample |
| SoundQueue.NullFrameIs | lib/soundbasedevice.cpp:36-66 | A null frame is two samples of silence: zeros, or the middle of the range |
| SoundQueue.NullFramesAre | lib/soundbasedevice.cpp:359-365 | And so is every one of those that fill a chunk |
| SoundQueue.ChannelKept | lib/soundbasedevice.cpp:176-207 | Each channel gets what was written for it, or for the other one if the hardware swaps them; one channel goes to both |
| SoundQueue.FramesKept | lib/soundbasedevice.cpp:171-214 | Frames stay in order: the j-th converted frame is the j-th written one |
| SoundQueue.SoundDevice.GetChunk | lib/soundbasedevice.cpp:331-374 | A chunk is the oldest frames of the queue followed by null frames that end exactly at its end; the queue loses just those frames, which join what the hardware has taken; the callback is due below the threshold |
| SoundQueue.SoundDevice.Pad | lib/soundbasedevice.cpp:359-365 | The padding loop ends exactly at the end of the chunk |
| SoundQueue.SoundDevice.CountsAreExact | lib/soundbasedevice.cpp:376-402 | The two pointer formulas give the bytes held and the bytes free, one byte staying free |
| SoundQueue.SoundDevice.Enqueue | lib/soundbasedevice.cpp:404-420 | The bytes are appended across the wrap of the ring |
| SoundQueue.SoundDevice.Dequeue | lib/soundbasedevice.cpp:422-438 | The oldest bytes are taken across the wrap |
| SoundDma.SoundDma.GetNextChunk | lib/i2ssoundbasedevice.cpp:336-367 | Main result. The buffer that is written is never the one that the channel reads, at every call of the state machine |
| SoundDma.SoundDma.Start | lib/pwmsoundbasedevice.cpp:257-309 | The first chunk goes to buffer 0; without one the device stays idle |
| SoundDma.SoundDma.FinishStart | lib/i2ssoundbasedevice.cpp:299-316 | The second chunk goes to buffer 1; without one the chain ends after the first |
| SoundDma.SoundDma.Cancel | lib/i2ssoundbasedevice.cpp:319-329 | A running device is cancelled; nothing else changes |
| SoundDma.SoundDma.Complete | lib/i2ssoundbasedevice.cpp:142-146 | The control blocks point at each other: the channel goes on to the other buffer, or stops if the chain was ended |
| SoundDma.SoundDma.InterruptHandler | lib/i2ssoundbasedevice.cpp:422-478 | Running goes on while there are chunks; cancelled or out of chunks it terminates, and the next interrupt makes it idle: two error-free interrupts at most |
| SoundDma.SoundDma.NotStalled | lib/pwmsoundbasedevice.cpp:408-469 | Unless an error stopped it, the device is idle if and only if the DMA chain has ended and was handled |
| SoundDma.SoundDma.AllPlayed | lib/pwmsoundbasedevice.cpp:408-469 | Main result. An idle device has played every chunk it took, once and in order, if and only if it was not cancelled between two fills of Start the second of which found nothing; then it took one chunk and played that and a buffer that was not filled |
| SoundDma.CancelDuringStart | lib/i2ssoundbasedevice.cpp:299-329 | The run in which that happens |
| Calendar.GetAfterSet | lib/time.cpp:56-169 | Main result. Get returns the time that was set if and only if its year is still a 32-bit number |
| Calendar.YearWrapsRun | lib/time.cpp:56-169 | The first 64-bit time that is not returned |
| Calendar.SetAfterGet | lib/time.cpp:56-169 | Main result. Setting what Get returned gives every valid date and time back |
| Calendar.WeekDayRestoredIff | lib/time.cpp:115-144 | SetDate computes the same week day as Set if and only if the days, wrapped to 32 bits, lose a whole number of weeks |
| Calendar.WeekDayWrapsRun | lib/time.cpp:115-144 | The first date whose week day is lost |
| Calendar.ClosedForm | lib/time.cpp:219-227 | Days before a year by the rule of every fourth, hundredth and 400th year, independent of any loop |
| Calendar.SecondsInjective | lib/time.cpp:146-169 | Different dates have different times |
| Calendar.MonthLengths | lib/time.cpp:23 | The lengths of the months, February by the leap year rule |
| Calendar.WeekDaysGoRound | lib/time.cpp:65 | The epoch was a Thursday, and the days of the week go round |
| Calendar.LeapDay | lib/time.cpp:146-169 | The time of 29 February 2000, 12:34:56, a Tuesday |
| Calendar.LastSecond | lib/time.cpp:146-169 | The date of the last second of a signed 32-bit time, a Tuesday |
| Calendar.Time.constructor | lib/time.cpp:30-39 | The epoch, a Thursday |
| Calendar.Time.Set | lib/time.cpp:56-97 | The date is the one of the time, year by year and month by month; the loops end |
| Calendar.Time.SetTime | lib/time.cpp:99-113 | Accepts exactly the valid times of day, and changes nothing otherwise |
| Calendar.Time.SetDate | lib/time.cpp:115-144 | Accepts exactly the valid dates from 1970 on, with the week day computed from wrapping days, and changes nothing otherwise |
| Calendar.Time.Get | lib/time.cpp:146-169 | The seconds of the date |
| Calendar.Time.FindYear | lib/time.cpp:67-78 | The year loop of Set, with a wrapping year |
| Calendar.Time.FindMonth | lib/time.cpp:82-93 | The month loop of Set stays within the year |
| FatTime.GetFatTime | addon/fatfs/ffsystem.cpp:183-240 | Main result. For every 32-bit time from 1980 on, the packed fields are exactly those of its date, which is no later than 2106, and reading them back gives the time rounded down to an even second; earlier times give 0 |
| FatTime.UnpackedIsDate | addon/fatfs/ffsystem.cpp:229-239 | The date that the fields of the word tell is the packed date with its seconds rounded down |
| FatTime.FieldsTell | addon/fatfs/ffsystem.cpp:229-239 | Where each field of the date stands in the word |
| FatTime.FieldsUnpack | addon/fatfs/ffsystem.cpp:231-239 | Fields within their widths are read back from the packed word; none overflows into another |
| FatTime.YearBound | addon/fatfs/ffsystem.cpp:198-209 | A 32-bit time ends in the year 2106 |
| FatTime.StartOf1980 | addon/fatfs/ffsystem.cpp:211-214 | The year is below 1980 exactly for times before its first second |
| FatTime.RoundedDown | addon/fatfs/ffsystem.cpp:235-239 | Reading the fields back gives the time rounded down to an even second |
| FatTime.Packed | addon/fatfs/ffsystem.cpp:229-239 | The packed word has the fields of the date |
| OneWireEnumeration.Enumeration | addon/OneWire/OneWire.cpp:313-471 | Main result. For any devices without a zero family byte, counted from the start of a search, round after round reports exactly the devices, once each, in ascending order of the transmitted bits, and then the end |
| OneWireEnumeration.CompleteIffNoZeroFamily | addon/OneWire/OneWire.cpp:355-471 | The enumeration is complete if and only if no device has a zero family byte |
| OneWireEnumeration.ZeroFamilyHidesAll | addon/OneWire/OneWire.cpp:461-468 | With one such device every search from a start reports the end at once |
| OneWireEnumeration.NextIsSuccessor | addon/OneWire/OneWire.cpp:355-471 | A search finds the least device above the last one |
| OneWireEnumeration.WalkFindsLeast | addon/OneWire/OneWire.cpp:402-420 | Behind the last discrepancy the walk finds the least device |
| OneWireEnumeration.FamilyMarkIs | addon/OneWire/OneWire.cpp:413-420 | The family mark is the last of the first eight bits where a 0 was taken although a 1 was on offer, and stays if there is none |
| OneWireEnumeration.TargetFindsFamily | addon/OneWire/OneWire.cpp:328-337 | After target_search the next search returns a device of the family if and only if the bus has one |
| OneWireEnumeration.ListExists | addon/OneWire/OneWire.cpp:355-471 | The ascending list of devices exists for every bus |
| OneWireSearch.OneWire.constructor | addon/OneWire/OneWire.cpp:313-323 | The search starts anew |
| OneWireSearch.OneWire.Reset | addon/OneWire/OneWire.cpp:313-323 | The search state is cleared, the ROM buffer too |
| OneWireSearch.OneWire.TargetSearch | addon/OneWire/OneWire.cpp:328-337 | The state that makes the next search follow the family byte |
| OneWireSearch.OneWire.Search | addon/OneWire/OneWire.cpp:355-471 | The bit loop over the wired-AND bus computes one walk of the trie of devices: same state, same report; a wire that stays low is a bus without devices |
| OneWireSearch.OneWire.FollowBits | addon/OneWire/OneWire.cpp:386-445 | The ROM buffer holds the path that was written, and both discrepancy marks are those of that path |
| OneWireSearch.OneWire.FollowBit | addon/OneWire/OneWire.cpp:389-442 | One bit of the loop |
| OneWireSearch.OneWire.ChooseDirection | addon/OneWire/OneWire.cpp:389-420 | The direction from the two bits read, the last discrepancy and the stored bit; some device always listens on |
| OneWireSearch.Bus.ReadBit | addon/OneWire/OneWire.cpp:210-228 | A bit reads low when some participating device pulls it low |
| OneWireSearch.Bus.WriteBit | addon/OneWire/OneWire.cpp:180-204 | Devices whose bit differs drop out |
| OneWireSearch.Bus.Reset | addon/OneWire/OneWire.cpp:144-174 | A presence pulse comes exactly when there is a device and the wire is found high within 124 looks; the wait ends |
| OneWireCrc.Crc8 | addon/OneWire/OneWire.cpp:508-516 | The table form is the bit-serial CRC-8 on every message |
| OneWireCrc.Crc8Bitwise | addon/OneWire/OneWire.cpp:522-536 | So is the bitwise form |
| OneWireCrc.TableIsSerial | addon/OneWire/OneWire.cpp:480-499 | Every table entry is eight bit-serial steps |
| OneWireCrc.ByteStep8 | addon/OneWire/OneWire.cpp:512-514 | One table look-up takes in one byte |
| OneWireCrc.Crc16 | addon/OneWire/OneWire.cpp:546-567 | The folding form is the bit-serial CRC-16 with polynomial 0xA001 on every message and from every start |
| OneWireCrc.ByteStep16 | addon/OneWire/OneWire.cpp:554-564 | The parity trick takes in one byte |
| OneWireCrc.CheckCrc16 | addon/OneWire/OneWire.cpp:540-544 | Accepts exactly the two complemented bytes of the CRC, low one first |
| OneWireCrc.ByteErrorChangesCrc | addon/OneWire/OneWire.cpp:546-567 | Changing any one byte of a message changes its CRC-16 |
| OneWireCrc.CheckRefusesByteError | addon/OneWire/OneWire.cpp:540-567 | So the check refuses every message with one byte changed, and every other pair of bytes |

## Left out

- SdHost.SdHost.RunCommand: the waiting loop is cut after any number of steps; that every request is signalled within some time is not stated, since a busy error or a silent controller prevents it. Data comes with a buffer that is not empty.
- SdHost: CMD23 (the sbc command), which the driver never uses because no flag asks for it; clock, bus width and power settings; register dumps and delays.
- SdHost.SdHost.TaskletFinish: the branch that replaces an error while overclocked, which is never reached: the preferred overclock starts at 0, so the clock is never set above 50 MHz and the host never counts as overclocked.
- SdHost.SdHost.IrqHandler: a block interrupt is taken to be shown only while it is enabled; without that the BUG_ON on the block count could fire.
- SdTransfer.Transfer.ReadBlockPio: time is unbounded, so the wrap of the 32-bit tick counter within one block is not modelled.
- SdTransfer.Transfer.ReadTicks: the clock advances by at least one tick whenever it is read, which makes the timeout end the loops; one turn of a loop reads the FIFO state, the status and the clock once each.
- SdHost: the buffer is an array of 32-bit words, so a buffer that is not word aligned is not modelled; bytes of a size that is no multiple of four end in EINVAL as in the code.
- GenetTx: addresses of buffers come from the caller, as fresh nonzero numbers; PHY, PCIe, DMA registers and memory barriers are I/O.
- GenetRx.Receiver.CountDiscards: clearing the producer index register is taken to clear its counter half only, as the driver relies on it.
- GenetTx.Genet.SendFrame: frames of more than 1536 bytes; the code copies them into a buffer of 1536 bytes without a check, so what happens is not defined, and callers keep to the limit.
- GenetTx.Genet.SendOn: the same limit of 1536 bytes.
- GenetTx.FillBuffer: the same limit of 1536 bytes.
- GenetRx.Receiver.ReceiveFrame: what the hardware delivers is taken to fit a buffer, and an intact frame to be longer than padding and checksum, as the code asserts.
- CriticalSection: modelled on values as a system of steps, since contexts interrupt each other between any two accesses; `Processor` gives the two routines on fields and an array, with the runs of interrupts between their lines as an argument.
- SpinLock: modelled on values in the same system; the exclusive load and store loop is one atomic compare-and-set, the spin lock is taken to be enabled, and liveness or fairness of spinning is not stated.
- CriticalSection: switching between cooperative tasks inside a critical section.
- KernelTimer.Timers.StartKernelTimer: what becomes of the list once a delay of 2^31 or more is in it; handles are never used again for other timers; the tick is read and the timer inserted in one step (InsertTimer covers a tick in between as long as the timer is not due); parameter and context pointers.
- KernelTimer.Timers.RunHandler: handlers do not cancel the timer whose element the poll has saved as the next one, since that leaves the poll with a freed element, and do not start timers with delay 0, which the same poll or the next one fires.
- KernelTimer: time of day, calibrated delays and the periodic handlers.
- HeapAllocator: headers and free lists are fields of one record, and the data of blocks is a map from block to bytes; magic numbers, debugging statistics and the spin lock around each routine are left out; the 64-bit variant is modelled.
- HeapAllocator.Allocator.ReAllocate: sizes that wrap into a block without room while an old block is to be copied into it, since that copy leaves the block; ServeKeepsSound tells that such requests break the heap.
- PageAllocator: pages of 64 KByte, and only the free-list header of a page is modelled.
- Properties: the file system itself, whose reads and writes may fail at any point; the getters and setters for numbers and addresses.
- NumberText: ftoa, the formats of FormatV and the 32-bit variant of unsigned long.
- StringReplace.CString.Replace: old and new text must not point into the string's own buffer; a string without a buffer is left out.
- SoundQueue: a 24-bit sample is three bytes, although the code reads four and shifts; unknown formats; the 32-bit overflow of the queue size; the spin lock and the callback itself.
- SoundQueue.SoundDevice.GetChunk: chunks hold a whole number of frames, as the code asserts.
- SoundDma: a completion interrupt is handled before the other buffer is drained and Start fills the second buffer before the first one is drained; nothing is stated after a DMA error, where the code stays.
- Calendar: negative times, and 32-bit time_t.
- FatTime: the time zone and the clock that the time comes from.
- OneWireSearch: bus timing, except for how long the wire stays low before a reset; devices that come, go or answer wrongly during a search; skip, select and power methods.
- Firmware mailbox, screen, USB, page tables, serial and logger rings, the class allocator and the Linux emulation layer: register sequences, or easier copies of the queues and allocators above.
