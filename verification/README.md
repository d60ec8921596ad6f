# Verified models of NexIOS components

NexIOS is a capability-based RTOS with a set of host tools. This project models the parts of it whose
correctness is a matter of whole runs, and proves what they promise.

- **Upload path.** `Sender` is the host side of `tools/upload-ramdisk.py`, `Receiver` the protocol of the receive
  session in `userspace/xmodem.c`, and `Transfer` joins them by two FIFO lines that lose, repeat (by
  retransmission) and garble items. `TransferTheorems` holds the results over all runs, `StaleAcks` the exact
  number of stale ACKs at which the prefix property ends, `Upload` the step from the host's exit code to the bytes
  on disk, `Completion` and `Undisturbed` what becomes of an upload in which nothing goes wrong, `Disturbed` how many
  lost and garbled packets an upload survives (`RunBuilder` is about putting runs together, `Progress` and `Spill`
  about the progress text the receiver sends meanwhile).
  Below the protocol: `Crc16`, `Framing` (raw, base64, hex), `PacketReader`, `PacketNumber`, `Block0` (the YMODEM
  header), `Line` (the host's bytes and the events the receiver makes of them), `Staging` (512-byte blocks, 32-byte
  chunks, dump), `Session` (the receive loop as it runs), `Ramdisk` (the server with lazily mapped segments), and
  `Delivery`, which takes the host's bytes all the way to the server's disk.
- **Interrupt delivery.** `IrqTable` is the slot table of `src/kernel/irq_delivery.cpp` with the three lock sections
  of the wait system call; `IrqRuns` interleaves all critical sections with interrupts and dying tasks;
  `IrqTheorems` says what that guarantees, `IrqInstances` which life of a task an interrupt reaches, and `IrqLaws` what
  each section does to the table, up to the theorem that no interrupt is lost.
- **Chains.** `Chain` is the compiler of `tools/chainrun.py`, `ChainRun` its runner, `ChainTheorems` the results.
- **Preprocessor.** The branch-stack evaluator of `tools/check-config.py` against structured conditionals.
- **Kernel state and arithmetic.** `LazyFpu` (lazy register switching), `ChaCha`, `ChaChaVector`, `CounterWord` and
  `Prng` (the random number generator), `DateTime` (time to calendar text).

Code that updates state step by step is a class or a method with loops, proved equal to a function on values; the
theorems are about those functions. `dafny verify dfyconfig.toml` checks everything.

## What is assumed

- A packet that passes the CRC is the packet that was sent. `Crc16.BurstDetected`, `Crc16.ZeroResidue` and
  `PacketReader.DamagedPacketRefused` and `PacketReader.DamagedNumberRefused` say which damage the check is certain to catch. Noise on the line never
  forges a whole packet or the receiver's final report, and may be anything else, ACKs included.
- An accepted upload has a nonempty file, packets of 128 or 1024 bytes, and a file name without NUL, as `main` and
  the file system ensure.
- The kernel maps distinct ramdisk segments to disjoint addresses, never at address 0, and grants for a mapped
  segment keep its address.
- Tasks and capability objects are identified by their addresses, which are reused. Task generations are 32-bit
  numbers handed out in order. A task is drained before its memory is reused, a capability object is bound when it is
  created and then owns no slot, and only the running task arms and waits (`src/kernel/task/task.cpp`,
  `src/kernel/cap/irq.cpp`).
- Whether a message to the ramdisk server gets through depends on its block and chunk and not on time, and its reply
  is not lost once the server has acted. So a dump after a session finds the same messages delivered.
- The host starts to send when one handshake byte is still on the line. Every line feed goes out as carriage return
  and line feed, as the serial drivers do it.
- The registers are in their reset state when the kernel starts.
- Time-outs are events that may happen at any moment. Entropy, attempts of chain steps, interrupts of the chain
  runner, and the truth of macro expressions are arbitrary functions.

## Where the code differs from what it says

- The prefix property of the upload holds in all runs with fewer than `n` stale ACKs in effect exactly when `n` is at
  most 256, or the file has at most 256 data packets and packet 256 does not read as a header with a wrong size
  (`StaleAcks.StaleLimitExact`; `StaleAcks.StaleAcksBreakThePrefix` needs no noise). The host's byte count check still
  makes exit code 0 safe without any such limit (`Upload.ExitZeroMeansFileOnDisk`).
- The host accepts files up to the size of the ramdisk, but gives up on more than 65536 bytes of text, and the
  receiver's progress lines count as text. Even with nothing lost, late or garbled an upload exits 0 exactly up to
  16,121,856 bytes and exits 3 beyond (`Undisturbed.CompletesExactly`, `Undisturbed.FullDiskFails`).
- Ten retries are allowed for each packet, but the header does not reset the receiver's count, so bad copies of the
  header count against the first data packet: an upload can survive ten bad copies of any packet and still end with
  ten of the header and one of packet 1 (`Disturbed.SurvivesExactly`, `Disturbed.HeaderFaultsCount`).
- `release_slot_idx` with a null owner is described as releasing an ownerless slot; it releases any occupied slot and
  wakes its waiter (`IrqTheorems.NullReleaseExample`), and leaves owned slots alone exactly when the index names no
  occupied slot that has an owner (`IrqTheorems.NullReleaseExact`). `set_slot_owner` checks only occupancy
  (`IrqTheorems.SetOwnerExact`, `IrqTheorems.SetOwnerExample`). Runs use both as the create paths do.
- The pending count of a slot is exact only below 2^32 (`IrqTheorems.NoLostWakeup`). A task generation comes back after
  2^32 tasks (`IrqTheorems.GenerationsRepeat`), which does no harm: memory a slot refers to is not reused, so effects
  reach the instance that registered in any run (`IrqInstances.EffectsReachRegistrant`).
- A chain step with `next: "fail"` that succeeds ends the chain with exit code 0; a step that goes to `fail` ends it
  with the failure code exactly when no attempt succeeded (`ChainTheorems.FailTargetExact`).
  A jump out of an inner loop leaves its frame behind and can end in the desync exit (`ChainTheorems.DesyncExample`);
  the loop stack stays right exactly while no jump leaves or enters a loop (`ChainTheorems.StackExact`).
- Two arms of one conditional group can be read: a second `#else`, or an `#elif` behind an `#else`, is not refused
  and `#else` does not mark its group as taken (`Preprocessor.TwoElsesRead`, `Preprocessor.ElifAfterElseRead`).
  `Preprocessor.ManyArmsExact` says exactly when.
- The first use of the floating-point registers by a task resets the control words and leaves the data registers of
  the task before (`LazyFpu.FirstUseFindsOldData`). The control words are switched correctly in all runs of harmless
  events; all of the registers are, exactly when every first use also finds clean data registers
  (`LazyFpu.LazyIsEager`, `LazyFpu.RunExact`).
- The owner of the registers is not cleared when its task ends, so a new task in the same memory finds the old
  registers (`LazyFpu.RecycledOwnerSeesOldRegisters`); `LazyFpu.LazyExact` says exactly which runs are affected.
- The key and counter of a block are fresh for the first 2^32 blocks of every generator and no further
  (`Prng.DistinctInputsExact`); later two blocks share them exactly when 2^32 divides their distance and no reseed
  changed the key (`Prng.SharedInputs`).

## Model

| member | source | states |
|---|---|---|
| Upload.ExitZeroMeansFileOnDisk | tools/upload-ramdisk.py:371-393 | If the host exits 0, the session over the events the receiver heard has finished with the file's length, and the disk it leaves holds the file from block `start` on with every byte outside the file's blocks unchanged; for every file that fits, every run, any losses, noise and stale ACKs. |
| Upload.UploadToDisk | userspace/xmodem.c:391-522 | The receive session on the server's memory, over the events of any run of the upload: if the host exits 0, the server's disk holds the file from block `start` on and every byte outside its blocks is what it was. |
| Upload.ExitZeroNeedsRoom | userspace/xmodem.c:344-379 | Exit code 0 implies that every block of the file exists and could be written. |
| Undisturbed.CompletesExactly | tools/upload-ramdisk.py:107-179 | An upload can end with exit code 0, with nothing lost, late or garbled, exactly when the header fits its packet, every block of the file exists and can be written, and the file has at most 16,121,856 bytes. |
| Undisturbed.ExitIsDecided | tools/upload-ramdisk.py:137-180 | However host and receiver take turns, the exit code of such an upload is 0 up to that size and 3 beyond. |
| Undisturbed.UploadEnds | tools/upload-ramdisk.py:107-180 | Every such upload has a run that ends, with that exit code. |
| Undisturbed.FullDiskFails | userspace/xmodem.c:499-511 | A file that fills the ramdisk ends with exit code 3 in such a run and with 0 in none. |
| Disturbed.SurvivesExactly | tools/upload-ramdisk.py:137-179 | Any pattern of lost and garbled copies of each packet and of lost EOTs: a feasible upload within the size limit exits 0 exactly when every packet has at most ten bad copies, header and packet 1 together have at most ten garbled ones, and at most two EOTs are lost. |
| Disturbed.HeaderFaultsCount | userspace/xmodem.c:442-470 | Ten garbled headers and one garbled packet 1 end an upload in which no packet has more than ten bad copies. |
| Disturbed.FaultsPass | userspace/xmodem.c:442-447 | Bad copies of a packet leave host and receiver ready for the next copy, with every copy and every rejection counted, exactly while the host has copies left and the receiver has rejected at most ten in a row; else the upload has failed. |
| Undisturbed.WholeSpill | userspace/xmodem.c:499-511 | The progress text of a whole upload, packet by packet, is one line at each multiple of 16 blocks before the end of the file, for both packet lengths. |
| Spill.SpillExact | tools/upload-ramdisk.py:155-157 | The handshake byte and the progress lines of a file stay within the host's cap exactly up to 16,121,856 bytes. |
| Progress.LineIs | userspace/xmodem.c:499-511 | A progress line on the wire: its length with both line feeds expanded, and that no byte of it is taken for an answer. |
| Progress.LineVector | userspace/xmodem.c:504-508 | The line for 5 of 7 bytes, byte by byte. |
| Progress.PrintU64 | userspace/xmodem.c:796-810 | The digit loops print the decimal text of every 64-bit number. |
| Completion.Answered | userspace/xmodem.c:411-517 | The receiver's state and answer for each item of such an upload: ACK and progress text, ACK alone for the last packet, ACK and report for the EOT. |
| Delivery.ReceiveFile | userspace/xmodem.c:391-522 | From bytes to disk, in every framing mode: the receiver on the host's framed packets and EOT of such an upload reports the file's length and leaves the disk overwritten by exactly the file, padded to blocks. |
| Line.HearAll | userspace/xmodem.c:400-447 | In every framing mode the reader makes of the host's bytes exactly the events packet 0, packet 1, ..., EOT, with numbers modulo 256 and intact bodies, and leaves only the last newline. |
| Line.NextEvent | userspace/xmodem.c:319-340 | Reading the line at packet `i` gives that packet, or the EOT, and leaves the line at the next one. |
| Line.HearEvent | userspace/xmodem.c:416-447 | One read of the line is the event the decoded bytes stand for: silence, EOT, CAN, a stray byte, or a packet that passes or fails its checks; `Line.StartBytes` and `Line.PacketHeard` say which bytes those are. |
| Line.PacketHeard | userspace/xmodem.c:416-447 | The event is a packet with this number and body exactly when the bytes on the line decode to a start byte, the number, its complement, a body of the length the start byte announces, and the CRC of the body. |
| Line.DamagedNumberHeard | userspace/xmodem.c:440-447 | Such a packet is heard as a bad packet. |
| Line.StartBytes | userspace/xmodem.c:427-439 | Which start byte means what: 0x01 and 0x02 begin a packet, 0x04 ends the file, 0x18 cancels, every other byte is stray. |
| Upload.ReceiverOfRun | userspace/xmodem.c:391-522 | The receiver state of any run of the two-party system is the receive session over the events it heard. |
| TransferTheorems.ExitZeroStagedFile | tools/upload-ramdisk.py:384-387 | Exit code 0 implies that the staged bytes are exactly the file, without any bound on stale ACKs: accepted packet indices strictly increase, so the right byte count leaves no room for a gap. |
| TransferTheorems.RunKeepsInv | userspace/xmodem.c:411-511 | Every run keeps the line, history and report invariants: packets on the line are ordered, accepted packets are increasing and congruent to the expected number, staged bytes are a prefix of their bodies, a final report on the line is the true one. |
| TransferTheorems.StagedIsPrefix | userspace/xmodem.c:472-498 | In every run that stays in the sequence window, accepted packets are 1, 2, 3, ... and the staged bytes are a prefix of the padded stream, and of the file once block 0 was read, across any number of wraps. |
| TransferTheorems.FewStaleAcksKeepPrefix | tools/upload-ramdisk.py:107-179 | The same for every run in which fewer than 256 stale ACKs are in effect at any moment. |
| TransferTheorems.ShortFileKeepsPrefix | userspace/xmodem.c:448-498 | The same for every run of such a short file, whatever ACKs the host counts. |
| TransferTheorems.LeadIsPaidFor | tools/upload-ramdisk.py:137-160 | Conservation of ACKs over every run: packets counted by the host plus ACKs on the line and lost equal packets accepted plus stale ACKs. |
| TransferTheorems.SequenceWindow | userspace/xmodem.c:472-478 | An 8-bit number tells the expected packet from those up to `k` ahead and one behind exactly when `k <= 255`, and the repeat of the last one exactly when `k <= 254`. |
| TransferTheorems.WindowVerdict | userspace/xmodem.c:448-478 | In the window a repeat is acknowledged and changes nothing, block 0 declares the file size without moving on, and any other gap aborts with nothing staged. |
| StaleAcks.StaleAcksBreakThePrefix | userspace/xmodem.c:472-498 | For every upload of at least 513 data packets there is a run without noise, with at most 256 stale ACKs in effect, in which packet 513 is taken for packet 257; the staged bytes are not a prefix if the two differ. |
| StaleAcks.StaleLimitExact | userspace/xmodem.c:472-498 | For every upload whose header fits: all runs with fewer than `n` stale ACKs in effect keep the prefix property if and only if `n <= 256` or the file has at most 256 data packets, packet 256 not reading as a header with a wrong size. |
| Transfer.StepKeepsInv | tools/upload-ramdisk.py:107-179 | Every single step of host, receiver or line keeps the invariant. |
| Receiver.StageAllAppends | userspace/xmodem.c:344-364 | Staging appends a prefix of the body and nothing else, the whole body unless a write fails or the declared size is reached. |
| Receiver.PacketEffect | userspace/xmodem.c:448-498 | A packet changes staged bytes only when it carries the expected number in a live session, and only block 0 at the start declares a size. |
| Receiver.OtherEffect | userspace/xmodem.c:412-447 | Every other event leaves staged bytes, expected number and size alone. |
| Receiver.RejectionLaw | userspace/xmodem.c:418-467 | A bad packet, silence, a stray byte or an unreadable header draws a NAK, counts one retry and changes nothing else; the eleventh in a row ends the session with code -3 and two CANs, after the NAK for packets and headers and instead of it for silence and stray bytes. |
| Receiver.AcceptanceLaw | userspace/xmodem.c:448-498 | A packet with a readable header announces its size once; the expected number stages, acknowledges, counts on and clears the retries, and ends the loop at the announced size; the number before is acknowledged only; any other ends the session. |
| Receiver.LeavingLaw | userspace/xmodem.c:416-432 | CAN ends the session with -2 and no answer, the time cap with -3 and two CANs. |
| Receiver.EotLaw | userspace/xmodem.c:427-430 | An EOT is acknowledged and the session ends with the byte count, or with -9 when the last partial block cannot be written. |
| Receiver.HandshakeLaw | userspace/xmodem.c:401-410 | Before the first packet: up to ten requests, and a packet is handled as in the loop. |
| Receiver.AsksTenTimes | userspace/xmodem.c:400-410 | A receiver that hears nothing sends ten requests in all and gives up with -2. |
| Receiver.ReportLaw | userspace/xmodem.c:499-510 | A progress line follows a packet exactly when it completes another 8 KiB; an unknown size reads as 0. |
| Receiver.SpokenLaw | tools/upload-ramdisk.py:144-157 | The bytes the host takes for ACK, NAK, CAN and the request; every other byte is text. |
| Receiver.RunStores | userspace/xmodem.c:344-379 | Over every session: every block touched exists, full blocks were written, and a finished session has written all of them. |
| Sender.StreamIsFile | tools/upload-ramdisk.py:114-123 | The first `k` data packets carry exactly the first `k` packet lengths of the padded file. |
| Sender.BodyLaw | tools/upload-ramdisk.py:118-123 | Every byte of a data packet is its byte of the file, or 0x1A behind the end of the file. |
| Sender.PacketAnswers | tools/upload-ramdisk.py:138-162 | The host on each answer to a packet: an ACK moves on, a NAK or silence sends it again up to eleven times in all, a CAN ends, and text counts up to 65536 bytes. |
| Sender.EotAnswers | tools/upload-ramdisk.py:163-179 | The same for the EOT: three sends, 64 bytes of text after each. |
| Sender.ReportAnswers | tools/upload-ramdisk.py:371-393 | The final report gives exit code 0 exactly when it names the length of the file and else 2, silence gives 4, a line without a report 2. |
| Session.Session.RxRun | userspace/xmodem.c:391-522 | The running session ends in the state and with the output of the model over the same events, progress text included, whose answers to every event `Receiver.RejectionLaw` to `Receiver.HandshakeLaw` state. |
| Session.Session.DumpReceived | userspace/xmodem.c:758-791 | After a finished session a dump of the range succeeds, prints exactly the received bytes, and leaves the disk alone. |
| Session.ReceiveThenDump | userspace/xmodem.c:758-791 | A session and then a dump: whenever the session over the events finishes, the dump succeeds and prints exactly what was staged. |
| Session.Session.Handle | userspace/xmodem.c:411-511 | One event moves the running session, and draws the replies and progress text, exactly as in the model; the laws of `Receiver` say for every phase and event what that is. |
| Session.Session.OnPacket | userspace/xmodem.c:448-498 | A packet is dispatched as in the model: block 0, expected, repeat, gap (`Receiver.AcceptanceLaw`, `Receiver.RejectionLaw`). |
| Session.Session.StagePacket | userspace/xmodem.c:479-486 | The byte loop stages what the model stages and keeps the staging invariant. |
| Session.Session.WriteProgress | userspace/xmodem.c:499-511 | A progress line exactly when the byte count has passed another multiple of 16 blocks. |
| Session.SendText | src/kernel/arch/x86_64/serial.cpp:64-82 | Text goes out with a carriage return before every line feed. |
| Session.Session.Finish | userspace/xmodem.c:487-517 | Leaving the loop flushes the partial block, reports the count, and fails when the write does. |
| Block0.HeaderRoundTrip | tools/upload-ramdisk.py:69-72 | For every name without NUL and every size, parsing the header gives the size back exactly when it has at most ten digits; the header is one 128-byte packet exactly when name and size fit. |
| Block0.ParseExact | userspace/xmodem.c:448-471 | A header gives a size exactly when it is a name, a NUL, one to ten digits and something that is no digit, and then the size is what the digits say. |
| Block0.HeaderLaw | tools/upload-ramdisk.py:69-72 | The header holds the name, a NUL, the decimal size and NULs up to 128 bytes, at least one. |
| Block0.AtoulBounded | userspace/xmodem.c:76-91 | The bounded digit loop computes the size field and refuses empty, endless and overlong runs. |
| Block0.FindNul | userspace/xmodem.c:448-456 | The scan finds the first NUL of the packet, or its length. |
| Crc16.CrcBitwise | tools/verify-276.py:32-38 | The shift loop computes the polynomial division. |
| Crc16.CheckValue | userspace/xmodem_crc.h:62-65 | The CRC of the digits 1 to 9 is 0x31C3, the check value of CRC-16/XMODEM. |
| Crc16.InitTable | userspace/xmodem_crc.h:30-46 | Entry `b` of the table is the division of byte `b`. |
| Crc16.CrcUpdate | userspace/xmodem_crc.h:48-60 | The table-driven loop computes the same division from any start value. |
| Crc16.TableStep | userspace/xmodem_crc.h:48-60 | One table lookup equals eight shifts, for every register and byte. |
| Crc16.CrcConcat | userspace/xmodem_crc.h:48-65 | The CRC of a concatenation is the CRC of the second part started from that of the first. |
| Crc16.ZeroResidue | userspace/xmodem_crc.h:62-65 | A message followed by two bytes has CRC 0 exactly when they are its own CRC, high byte first. |
| Crc16.BurstDetected | userspace/xmodem_crc.h:62-65 | Two messages of equal length that differ only within two adjacent bytes have different CRCs. |
| Crc16.DamageIsCaught | userspace/xmodem_crc.h:62-65 | Such damage to a message with its CRC never leaves residue 0. |
| Crc16.DivideLinear | tools/verify-276.py:32-38 | The division is linear over exclusive or. |
| Framing.FramingRoundTrip | userspace/xmodem.c:152-236 | For raw, base64 and hex, decoding the frames of any packets of any lengths gives the packets back one by one, with nothing decoded left over at any packet boundary. |
| Framing.Base64RoundTrip | userspace/xmodem.c:155-200 | Reading as many bytes as were encoded gives them back and leaves no pending byte, padded quartets included. |
| Framing.HexRoundTrip | userspace/xmodem.c:201-219 | The same for hex. |
| Framing.QuartetLaw | userspace/xmodem.c:165-182 | The base64 reader skips CR and LF, takes `=` only from the third place on, and gives up on every other character outside the alphabet. |
| Framing.HexLaw | userspace/xmodem.c:203-218 | The hex reader skips blanks and line ends, also inside a pair, and gives up on anything else that is no digit. |
| Framing.Base64Alphabet | userspace/xmodem.c:120-132 | The alphabet of section 4 of RFC 4648, in both directions. |
| Framing.HexAlphabet | userspace/xmodem.c:134-142 | Hex digits in either case, and the lower-case digits the host writes. |
| Framing.FrameVectors | tools/verify-276.py:41-46 | The frames of the test string "fooba" of section 10 of RFC 4648 in all three modes. |
| PacketReader.Reader.NextByte | userspace/xmodem.c:152-220 | The streaming decoder with its pending buffer yields the next decoded byte. |
| PacketReader.Reader.ReadBytes | userspace/xmodem.c:224-236 | The read loop fills the buffer with the next decoded bytes or fails. |
| PacketReader.Reader.RxPacketBody | userspace/xmodem.c:319-340 | A packet is read as specified, number, complement, data and CRC, with the result `PacketReader.IntactExactly` describes. |
| PacketReader.IntactExactly | userspace/xmodem.c:319-340 | A body is taken for intact exactly when the decoded bytes are its number, the complement of the number, the data of the announced length, and the CRC of the data. |
| PacketReader.DamagedNumberRefused | userspace/xmodem.c:326-330 | A framed packet damaged in its number or in the complement, but not in both, is refused in every framing, with any data and CRC. |
| PacketReader.PacketRoundTrip | tools/upload-ramdisk.py:128-136 | A built and framed packet is read back with its number and body, in every framing, and leaves exactly the newline of its frame. |
| PacketReader.DamagedPacketRefused | userspace/xmodem.c:331-339 | A packet damaged within two adjacent bytes of data and CRC is refused. |
| Staging.Client.StageByte | userspace/xmodem.c:344-364 | The staging invariant at every byte: the disk is the old image with exactly the full blocks received so far, the buffer holds the rest. |
| Staging.Client.StageFlush | userspace/xmodem.c:367-379 | A successful flush pads the tail with zeros and leaves the disk overwritten by the padded data. |
| Staging.Client.WriteBlock | userspace/xmodem.c:245-276 | Sixteen chunk messages write the block; the first failure leaves exactly the chunks before it. |
| Staging.Client.ReadBlock | userspace/xmodem.c:282-314 | Sixteen chunk reads return the block exactly when all of them are served, and change nothing. |
| Staging.Client.Dump | userspace/xmodem.c:758-791 | Dumping a range prints exactly its bytes when every block is readable, and stops otherwise. |
| Staging.HexDumpDeterminesData | userspace/xmodem.c:758-791 | A dump in hex determines the bytes it was made of. |
| Staging.HexLineLaw | userspace/xmodem.c:774-780 | The hex dump of a byte is its two digits in capitals, most significant first, and a newline. |
| Ramdisk.Server.HandleRead | userspace/ramdiskd.c:107-118 | A read returns the chunk of the flat disk, or an error that changes nothing. |
| Ramdisk.Server.HandleWrite | userspace/ramdiskd.c:120-131 | A write changes exactly one chunk of the flat disk; an error reply changes nothing. |
| Ramdisk.Server.ServeRange | userspace/ramdiskd.c:96-105 | The answer in its order: no grant, out of range, not mappable; mapping keeps the contents. |
| Ramdisk.Server.MapSegment | userspace/ramdiskd.c:50-60 | Mapping happens once per segment and fails without a handle. |
| Ramdisk.Server.HandleGrant | userspace/ramdiskd.c:62-78 | The handles before the first invalid one are stored and the others kept; there is a grant exactly when none is invalid; mapped segments keep their address. |
| Ramdisk.LocateIsFlat | userspace/ramdiskd.c:88-94 | Segment and offset of a chunk address its place in the flat disk, in range. |
| Ramdisk.ChunksDoNotOverlap | userspace/ramdiskd.c:88-94 | Different chunks occupy disjoint bytes. |
| Ramdisk.AnswerLaw | userspace/ramdiskd.c:96-105 | The answer codes in their order: -2 without a grant, -1 out of range, -3 for a segment that cannot be mapped, else 0. |
| Ramdisk.Geometry | userspace/ramdiskd.c:88-94 | 32768 blocks of 512 bytes in eight segments, chunks of 32 bytes. |
| IrqTable.IrqDelivery.ClaimSlot | src/kernel/irq_delivery.cpp:111-188 | Claims the first free slot for an allowed vector nobody holds, or refuses and changes nothing. |
| IrqTable.IrqDelivery.FindSlot | src/kernel/irq_delivery.cpp:102-109 | The first occupied slot with the vector. |
| IrqTable.IrqDelivery.SetSlotOwner | src/kernel/irq_delivery.cpp:190-198 | Sets the owner of an occupied slot. |
| IrqTable.IrqDelivery.ArmSlot | src/kernel/irq_delivery.cpp:200-262 | Arms only for the owner and vector of an unarmed slot, remembering the line mask and opening line or entry. |
| IrqTable.IrqDelivery.IsrEntry | src/kernel/irq_delivery.cpp:264-325 | Search and delivery without interference. |
| IrqTable.IrqDelivery.IsrLocked | src/kernel/irq_delivery.cpp:270-325 | The locked part: count and wake, or notify, or fall through. |
| IrqTable.IrqDelivery.ReleaseSlotIdx | src/kernel/irq_delivery.cpp:327-383 | Releases, disarms, wakes and clears, or refuses a stranger. |
| IrqTable.IrqDelivery.DisarmSlot | src/kernel/irq_delivery.cpp:83-100 | Disarming masks the entry or restores the line mask from before arming. |
| IrqTable.IrqDelivery.DrainTask | src/kernel/irq_delivery.cpp:385-437 | The loop drains every slot that refers to the task, without waking it. |
| IrqTable.IrqDelivery.WaitEnter | src/kernel/syscall/syscall_handlers_irq.cpp:175-202 | Takes a pending interrupt, or registers and blocks, or refuses, as `IrqLaws.EnterLaw` states. |
| IrqTable.IrqDelivery.WaitRollBack | src/kernel/syscall/syscall_handlers_irq.cpp:214-225 | Unregisters and runs on. |
| IrqTable.IrqDelivery.WaitResume | src/kernel/syscall/syscall_handlers_irq.cpp:227-253 | After a wake-up takes a pending interrupt of its own slot only. |
| IrqRuns.StepKeepsInv | src/kernel/irq_delivery.cpp:111-437 | Every critical section, with any stale index, keeps all invariants. |
| IrqRuns.RunKeepsInv | src/kernel/irq_delivery.cpp:111-437 | So does every run. |
| IrqLaws.NoInterruptLost | src/kernel/irq_delivery.cpp:264-325 | Any number below 2^32 of interrupts on an armed WAIT slot, and then as many waits: every wait takes one at once, none is left, and the next wait sleeps. |
| IrqLaws.ConsumedAreTaken | src/kernel/syscall/syscall_handlers_irq.cpp:175-202 | In every reachable state a running recipient takes exactly the interrupts consumed and not yet taken, one per wait, and then sleeps. |
| IrqLaws.EnterLaw | src/kernel/syscall/syscall_handlers_irq.cpp:175-202 | A wait is refused unless the slot is armed for the caller; it takes one pending interrupt, or with none pending registers the task and blocks it. |
| IrqLaws.ResumeLaw | src/kernel/syscall/syscall_handlers_irq.cpp:227-253 | After a wake-up a pending interrupt is taken exactly when the slot is still armed for the caller; its registration is removed from a slot of its own, and a slot that has passed to others is left alone. |
| IrqLaws.RollBackLaw | src/kernel/syscall/syscall_handlers_irq.cpp:214-225 | A wait called off takes back exactly its own registration and runs on. |
| IrqLaws.ClaimLaw | src/kernel/irq_delivery.cpp:111-188 | A claim succeeds exactly for an allowed vector nobody holds while a slot is free, and fills the first free slot. |
| IrqLaws.ArmLaw | src/kernel/irq_delivery.cpp:200-262 | Arming succeeds exactly for owner and vector of an unarmed slot with a known mode, and opens exactly its line or entry. |
| IrqLaws.DeliverLaw | src/kernel/irq_delivery.cpp:270-325 | An interrupt is handled exactly when the slot is armed for its vector: NOTIFY signals the vector, WAIT counts modulo 2^32 and wakes the waiter once, each only if alive. |
| IrqLaws.ReleaseLaw | src/kernel/irq_delivery.cpp:327-383 | Releasing is refused exactly for strangers and free or missing slots; else the slot is cleared and the recipient is signalled with 0, or the waiter made ready, if alive. |
| IrqLaws.DrainLaw | src/kernel/irq_delivery.cpp:385-437 | Draining gives back a slot exactly when it refers to the task, wakes nobody, and signals only another live recipient. |
| IrqLaws.AliveLaw | src/kernel/irq_delivery.cpp:287-311 | A registration is good exactly while its task is ready, running or blocked in the registered generation. |
| IrqLaws.TaskLaw | src/kernel/task/task.cpp:378-382 | How a task dies, when its memory is used again and in which generation, and that it may be woken elsewhere. |
| IrqLaws.StartLaw | src/kernel/irq_delivery.hpp:19-24 | Sixteen free slots with nothing counted; generations count modulo 2^32 from 1. |
| IrqTheorems.ReachedInv | src/kernel/irq_delivery.hpp:63-95 | In every reachable state occupied slots have different allowed vectors of the right kind, armed slots have owner and recipient, free slots are cleared. |
| IrqTheorems.NoLostWakeup | src/kernel/irq_delivery.hpp:88-95 | A sleeping task is registered, alive, in an armed slot with nothing pending; a live waiter means nothing pending; the count is what was consumed and not taken exactly while that is below 2^32. |
| IrqTheorems.MasksConserved | src/kernel/irq_delivery.cpp:83-100 | A line is unmasked while an armed slot holds its vector and else has its first mask; an MSI-X entry is unmasked exactly while its owner's slot is armed. |
| IrqTheorems.DeliveryExact | src/kernel/irq_delivery.cpp:264-325 | An interrupt is consumed exactly when the slot found is still armed for that vector under the lock; no other slot changes or holds the vector. |
| IrqInstances.NeverRevived | src/kernel/task/task.cpp:378-382 | A dead task stays dead until its memory is reused, in every run. |
| IrqTheorems.RevivedExactly | src/kernel/task/task.cpp:378-382 | A step makes a task alive in a generation again exactly when it reuses the memory of a drained dead task and the counter gives that generation. |
| IrqTheorems.GenerationsRepeat | src/kernel/task/task.cpp:378-382 | Within 2^32 tasks two generations are equal exactly when they are 2^32 tasks apart. |
| IrqTheorems.GenerationNotWoken | src/kernel/task/task.cpp:378-382 | Until then no effect of any run names a dead task with its generation. |
| IrqInstances.DeadNeverWoken | src/kernel/irq_delivery.cpp:287-311 | In every run of any length: an effect on the address of a dead task goes to an instance that was set up after the death and has armed a slot itself. |
| IrqInstances.EffectsReachRegistrant | src/kernel/irq_delivery.cpp:264-437 | In every run everything that makes a task ready or notifies it goes to the very instance that armed the slot, and that instance is alive. |
| IrqInstances.RecipientRegistered | src/kernel/irq_delivery.cpp:200-262 | The recipient of a slot, in every reachable state, is the instance that armed it; its memory was not reused since. |
| IrqTheorems.StepEffects | src/kernel/irq_delivery.cpp:287-311 | Every wake-up and notification goes to a task alive in the registered generation. |
| IrqTheorems.DrainExact | src/kernel/irq_delivery.cpp:385-437 | Draining clears exactly the slots that refer to the task. |
| IrqTheorems.InterleavedDrain | src/kernel/irq_delivery.cpp:385-437 | Once every slot was visited for a dead task, in any order and with any steps in between, no slot refers to it. |
| IrqTheorems.SlotDrained | src/kernel/irq_delivery.cpp:385-437 | The same slot by slot: a slot that was visited, or did not refer to the dead task at the start, does not refer to it at the end. |
| IrqTheorems.FormerOwnerIsPowerless | src/kernel/irq_delivery.cpp:327-343 | A capability without a slot cannot arm or release under any index and vector, whatever happens to the slots, until it is bound anew. |
| IrqTheorems.SetOwnerExact | src/kernel/irq_delivery.cpp:190-198 | Setting an owner keeps the table exactly when the slot is free, or the owner is new and an armed slot keeps an owner, its own if its entry is open. |
| IrqTheorems.SetOwnerExample | src/kernel/irq_delivery.cpp:190-198 | In a reachable state it leaves an armed slot without an owner. |
| IrqTheorems.NullReleaseExact | src/kernel/irq_delivery.cpp:327-343 | Releasing with a null owner leaves every owned slot alone exactly when the index is out of range, or its slot is free or ownerless. |
| IrqTheorems.NullReleaseExample | src/kernel/irq_delivery.cpp:327-383 | A reachable state in which it takes the armed slot of another capability and wakes its waiter. |
| Chain.PairLoops | tools/chainrun.py:226-239 | The stack loop computes the pairing scan. |
| Chain.PairingExact | tools/chainrun.py:226-239 | A chain is accepted by the scan exactly when its loops can be paired and nested at all, and the result is the only pairing. |
| Chain.ValidateAndCompile | tools/chainrun.py:217-299 | A program exactly when names, bounds, pairing, targets and jumps are in order, with every target what its word means at its step (`Chain.ResolveExact`); otherwise no program satisfies them. |
| Chain.CompileTargets | tools/chainrun.py:257-290 | Every target compiled is what its word means at its step and is an allowed jump, or there is a step with none. |
| Chain.ResolveExact | tools/chainrun.py:257-271 | `next` and `prev` are the neighbours, `prev` of the first step and unknown names mean nothing, `stop` is -1 and `fail` -2, a name is the step of that name; a word has at most one meaning and the resolver finds it. |
| Chain.OneStepChain | tools/chainrun.py:217-299 | A chain of one plain step is accepted exactly for 0 to 20 retries and targets `next`, `stop`, `fail` or its own name. |
| Chain.BareLoop | tools/chainrun.py:171-175 | A bare loop is accepted exactly for 0 to 10000 rounds. |
| ChainRun.Runner.Run | tools/chainrun.py:482-541 | The run loop ends with the exit code and state of the model. |
| ChainRun.Runner.RunStep | tools/chainrun.py:548-572 | The attempt loop of one step. |
| ChainRun.RunFrom | tools/chainrun.py:482-541 | Every run from every state ends, whatever frames are on the stack, with at most `budget + 20` attempts. |
| ChainRun.TurnProgress | tools/chainrun.py:482-541 | Every turn that goes on makes an attempt, is about to be interrupted, or uses up one of the finitely many steps left. |
| ChainTheorems.AttemptsBounded | tools/chainrun.py:490-572 | Every accepted chain ends after at most `max_steps + 20` attempts, none if the budget is not positive. |
| ChainTheorems.LoopTurnsBounded | tools/chainrun.py:500-523 | Between two attempts exactly as many turns pass as steps disappear from what is left, so finitely many. |
| ChainTheorems.StackAlwaysMatches | tools/chainrun.py:500-523 | When jumps stay in their loops the loop stack is the list of loops around the program counter after any number of turns. |
| ChainTheorems.NeverDesyncs | tools/chainrun.py:508-512 | An accepted chain with distinct ids whose steps jump only where the same ids enclose never reaches the desync exit. |
| ChainTheorems.DesyncExample | tools/chainrun.py:508-512 | An accepted chain with distinct ids that does desync without that restriction. |
| ChainTheorems.StackExact | tools/chainrun.py:500-523 | With distinct ids: along the first `n` turns of any run the stack is the list of enclosing loops exactly when no jump taken leaves or enters a loop. |
| ChainTheorems.JumpStackExact | tools/chainrun.py:500-523 | A stack that is right at a step is right at a jump target exactly when the same loops enclose both. |
| ChainTheorems.JumpCheckExact | tools/chainrun.py:243-284 | With distinct ids the jump check says exactly that no jump enters a loop the source is not part of. |
| ChainTheorems.JumpFreeRunUnrolls | tools/chainrun.py:482-541 | A chain without jumps visits a prefix of its nested loops unrolled, exits 0 only after all of it, and visits all of it unless a step fails, an interrupt arrives or the budget ends. |
| ChainTheorems.BudgetExact | tools/chainrun.py:490-497 | When every attempt succeeds it completes exactly when the budget exceeds the attempts before its last unrolled step. |
| ChainTheorems.FailTargetExact | tools/chainrun.py:524-546 | A run at a step whose taken target is `fail` ends with the failure code exactly when none of its attempts succeeds before an interrupt, and else with 0. |
| ChainTheorems.AfterFailure | tools/chainrun.py:524-546 | After a failed step `next` goes on, `prev` goes back one, a name goes to that step, `stop` exits 0 and `fail` exits 1. |
| ChainTheorems.AfterSuccess | tools/chainrun.py:524-546 | After a success the same, except that `fail` exits 0 as well. |
| ChainTheorems.TriesCount | tools/chainrun.py:548-572 | A step that never succeeds is attempted exactly once more than it has retries, unless an interrupt comes. |
| ChainTheorems.InterruptExact | tools/chainrun.py:482-499 | An interrupt that is up when a turn starts ends the run with 130 or 143 by the signal that came, and nothing else gives these codes. |
| ChainTheorems.EndsEarly | tools/chainrun.py:490-512 | A used-up budget exits 1, a loop end that does not match the open loop exits 2. |
| ChainTheorems.ExitZeroExact | tools/chainrun.py:482-546 | Every run from every state exits 0 exactly when it ends with the program counter outside the chain. |
| Preprocessor.Preprocess | tools/check-config.py:51-148 | The line loop computes the branch-stack scan. |
| Preprocessor.PreprocessIsMeaning | tools/check-config.py:86-148 | On well-nested text the scan reads exactly the lines, and computes exactly the macros, of the structured evaluation: at most one arm of a group, and only inside active arms. |
| Preprocessor.ScanIsEffect | tools/check-config.py:86-148 | Any block in any surroundings, arms in any order: the scan reads what the arm-by-arm effect says and restores the branch stack. |
| Preprocessor.ManyArmsExact | tools/check-config.py:105-121 | More than one arm of a group is read exactly when the surroundings are active, the first arm fails, and an `#else` reached with nothing taken is followed by another `#else` or a true `#elif`. |
| Preprocessor.TwoElsesRead | tools/check-config.py:116-121 | Both arms of a group with two `#else` are read. |
| Preprocessor.ElifAfterElseRead | tools/check-config.py:105-121 | An `#else` arm and a true `#elif` arm behind it are both read. |
| Preprocessor.TopDecides | tools/check-config.py:57-58 | The top branch alone decides whether all branches are active. |
| Preprocessor.IfDefReads | tools/check-config.py:90-99 | `#ifdef` reads its lines exactly when the macro is defined and not 0, `#ifndef` exactly otherwise. |
| Preprocessor.DefineTakesEffect | tools/check-config.py:127-146 | A definition is in force for the lines after it exactly when every branch around it is active. |
| Preprocessor.StrayDirectives | tools/check-config.py:105-125 | Outside any group `#else` and `#endif` do nothing and an `#elif` switches the rest on or off. |
| LazyFpu.Cpu.HandleTrap | src/kernel/kernel.cpp:2405-2467 | The trap handler saves the former owner and loads, or resets the control words and leaves the data registers, or leaves the registers of their owner alone. |
| LazyFpu.Cpu.CloneTask | src/kernel/task/task.cpp:1776-1806 | Cloning saves live registers first and copies the save area of a parent that used them. |
| LazyFpu.Cpu.UseRegisters | src/kernel/kernel.cpp:2405-2467 | A use traps if armed and finds what the model finds. |
| LazyFpu.Cpu.SwitchTo | src/kernel/task/scheduler_switch.cpp:830-832 | A switch arms the trap. |
| LazyFpu.OneTrapPerTurn | src/kernel/kernel.cpp:2405-2467 | A switch arms the trap, a use leaves it disarmed and nothing else touches it, so the next use of the same task finds what it left and saves and loads nothing. |
| LazyFpu.LazyIsEager | src/kernel/kernel.cpp:2405-2467 | In every run of harmless events a use finds what that task last left, or the reset state, exactly when it is not a first use on unclean data registers; for the control words alone always. |
| LazyFpu.ControlIsEager | src/kernel/kernel.cpp:2452-2458 | The control words every use finds are the right ones in every run of events that are harmless to them. |
| LazyFpu.LazyExact | src/kernel/task/task.cpp:2160-2175 | Along every run, no task can tell lazy from eager switching by any later clean uses, by the control words or by all of the registers, exactly when every event so far was harmless: no task set up in the memory of the registers' owner (a clone whose parent's contents the registers hold excepted). |
| LazyFpu.RunExact | src/kernel/kernel.cpp:2405-2467 | All uses of a run find what they should and no task can tell later on, exactly when every event is harmless and every first use clean. |
| LazyFpu.FirstUseFindsOldData | src/kernel/kernel.cpp:2452-2458 | A run of harmless events in which the first use of one task finds the data registers of another. |
| LazyFpu.HarmlessExact | src/kernel/task/task.cpp:1776-1806 | The same for one event, creation and cloning included. |
| LazyFpu.HandleAll | src/kernel/kernel.cpp:2405-2467 | The handlers called for any events find what the model finds; for harmless events that is what eager switching would find exactly when every first use is clean. |
| LazyFpu.StepRefines | src/kernel/kernel.cpp:2405-2467 | Every harmless event keeps the refinement to eager switching, and finds the same exactly when it is clean. |
| LazyFpu.RecycledOwnerSeesOldRegisters | src/kernel/kernel.cpp:2442-2449 | A run in which a new task's first use finds the old contents instead of the reset state. |
| ChaCha.QuarterVector | src/lib/chacha.hpp:49-55 | The quarter round meets the test vector of section 2.1.1 of RFC 8439. |
| ChaChaVector.BlockVector | src/lib/chacha.cpp:23-66 | The block function, constants, layout, rounds and addition included, meets the test vector of section 2.3.2 of RFC 8439. |
| ChaCha.AllRounds | src/lib/chacha.cpp:31-52 | The loop computes the rounds. |
| ChaCha.Chacha20Block | src/lib/chacha.cpp:23-66 | The output is the block of section 2.3 of RFC 8439. |
| ChaCha.WordsRoundTrip | src/lib/chacha.cpp:59-65 | Serialised words read back as the same words. |
| Prng.Generator.RandomFill | src/kernel/random.cpp:159-180 | A request gets the next bytes of the output stream, zeros before initialisation, and touches nothing else. |
| Prng.Generator.NextBlock | src/kernel/random.cpp:121-133 | The buffer holds the next block; counter and block count wrap; the key is replaced after each 2^20th block. |
| Prng.ReseedLaw | src/kernel/random.cpp:127-132 | Every byte of the key of block `n` is the byte drawn, when there is hardware, `n` is a multiple of 2^20 and the draw reaches that far, and else the byte of the key before. |
| Prng.Generator.RandomInit | src/kernel/random.cpp:137-157 | The stream starts at block 0 of the seed given, also when the generator was in use before. |
| Prng.FillEach | src/kernel/random.cpp:137-180 | Any sequence of requests to one generator after its initialisation: the answers have the lengths asked for and together are the output of the seed from its first byte, every byte once. |
| Prng.OutputIsBlockwise | src/kernel/random.cpp:159-180 | The stream consists of the blocks one after the other. |
| Prng.KeyChangesOnlyAtReseed | src/kernel/random.cpp:127-132 | The key is constant between multiples of 2^20 blocks, and always without a hardware generator. |
| Prng.CounterFresh | src/kernel/random.cpp:121-124 | Block counters repeat only after 2^32 blocks. |
| Prng.SharedInputs | src/kernel/random.cpp:121-133 | Two blocks have the same key and counter word exactly when 2^32 divides their distance and the key is the same, and then they are equal. |
| Prng.DistinctInputsExact | src/kernel/random.cpp:121-133 | The pairs of key and counter word of the first `n` blocks are all different for every seed and hardware exactly when `n <= 2^32`. |
| CounterWord.CounterInjective | src/kernel/random.cpp:121-124 | Fewer than 2^32 increments of the 32-bit counter never come back to the same word. |
| DateTime.Convert | src/kernel/kernel.cpp:2769-2800 | For every 64-bit time valid fields that name its millisecond in the Gregorian calendar, with a year of at most 2554. |
| DateTime.FindYear | src/kernel/kernel.cpp:2781-2788 | The year loop inverts the closed day count. |
| DateTime.FindMonth | src/kernel/kernel.cpp:2791-2799 | The month loop inverts the days before a month. |
| DateTime.NextYear | src/kernel/kernel.cpp:2757-2759 | The closed leap-day count grows by the length of each year. |
| DateTime.OrderExact | src/kernel/kernel.cpp:2769-2800 | Fields and milliseconds determine each other and are in the same order. |
| DateTime.FormatDatetime | src/kernel/kernel.cpp:2766-2838 | Exactly 23 characters and the terminator, nothing for a missing or small buffer; the characters read, column by column, as year, month, day, hour, minute, second and milliseconds of the time. |
| DateTime.TextReads | src/kernel/kernel.cpp:2824-2837 | The text has a digit or its separator in each of its 23 columns, and the digits of each field say its value in decimal. |
| DateTime.TextOrderIsTimeOrder | src/kernel/kernel.cpp:2824-2837 | For all 64-bit times text order is time order at millisecond resolution, and equal texts mean equal milliseconds. |
| DateTime.PutNumber | src/kernel/kernel.cpp:2808-2823 | The digit loops write the last 19 digits at most, zero-padded to the width, as far as the buffer reaches; `DateTime.NumberSays` says what they say. |
| DateTime.NumberIsPad | src/kernel/kernel.cpp:2808-2823 | For a number that fits the width this is the padded number. |
| DateTime.NumberSays | src/kernel/kernel.cpp:2808-2823 | The text written says the last 19 digits of the number in decimal, the whole number when it has no more, and is as long as they are or as the width. |
| DateTime.LeapYears | src/kernel/kernel.cpp:2757-2759 | Every fourth year is a leap year, except the centuries that are no multiple of 400. |
| DateTime.LeapDaysCounted | src/kernel/kernel.cpp:2757-2799 | The days around the end of February 2000 and 2100 have their numbers since 1970. |

## Left out

- The file transfer of `rxfile_run` in `userspace/xmodem.c`: the same protocol into a file, it would repeat the session.
- The host's progress output and handshake wait, the terminal, and the byte layout of messages between tasks.
- Boot, drivers, memory management, and the scheduler beyond the task states the delivery table reads.
- The aarch64 and riscv64 branches of the delivery table, threaded interrupt handlers beyond their claim on a
  vector, end-of-interrupt signalling, and the masking an MSI-X capability does by itself when it is disposed of.
- Loading, policy lookup, subprocesses, logging and time-outs of chain steps; only the bounds of `count` and
  `retries` of the per-step checks.
- Recognising directives in text and evaluating macro expressions in `tools/check-config.py`.
- Floating-point switching across several CPUs, and the diagnostic generation counter of the save area.
- Retries of single hardware random draws, and seeding from the clock.
- Session.Session.RxRun: an event is a whole packet or control byte; `Line` and `Delivery` connect bytes and events
  for an undisturbed upload, `PacketReader` for single packets.
- Line.HearAll: all reads come before the session handles them; the bytes on the line do not depend on the replies
  in an undisturbed upload.
- Chain.ValidateAndCompile: the refusals by the timeout policy and by missing scripts are not part of acceptance.
- LazyFpu.LazyIsEager: requires harmless events; `LazyFpu.LazyExact` and `LazyFpu.RunExact` show that this is the exact
  condition.
- Staging.Client.WriteBlock: a served write whose reply is lost is not among the failures.
- TransferTheorems.StagedIsPrefix: requires the sequence window; `StaleAcks.StaleLimitExact` gives the exact number of
  stale ACKs up to which runs keep it.
