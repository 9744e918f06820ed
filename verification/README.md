# Verified models of the Caliptra MCU simulation support code

Models, in Dafny 4.11, of the parts of this repository whose behaviour is hardest to see from the
code: the threaded JTAG bridge, the nested interrupt service of the test firmware, the APB boot and
mailbox master of the test bench, the ECC-protected memories, the firmware `printf` and counter
read, and the capture flops of the top level. `dafny verify dfyconfig.toml` checks everything.

| files | what they model |
|---|---|
| `RingBuffer`, `JtagDpi` | the byte ring of the TCP server and the remote_bitbang interpreter, as structures updated in place, with the values they stand for |
| `Bridge`, `BridgeDeadlock`, `BridgeLiveness`, `BridgeStreaming`, `BridgeStarvation`, `BridgeStop` | both threads and a remote client as interleaved steps; check, byte access and pointer publish are separate steps |
| `Hart`, `InterruptRuns`, `InterruptBounds`, `InterruptLoss`, `InterruptCore` | the CSRs a trap and `mret` move (RISC-V Privileged Architecture, section 3.1.6.1), the `nonstd_veer_isr` macro statement by statement, a PIC that delivers above `meicurpl`, and the same macro as straight-line code over a finite tree of interrupts |
| `Apb`, `ApbLanguage`, `ApbResults`, `ApbHandshake`, `ApbMailbox`, `ApbDetour`, `ApbBoot`, `ApbErrors` | the 25-state APB master on both clock edges against an arbitrary responder, a reference automaton over completed transfers, and runs that carry out the whole exchange |
| `Ecc`, `EccCode`, `MailboxInjection` | the (39,32) encoder, its distance, a decoder, and the bit-flip injection on the mailbox RAM |
| `Dccm` | the banked data memory: address split, preload and signature dump |
| `Numerals`, `Console`, `Printf`, `PrintfLetters`, `Mcycle` | the number printers loop by loop, the format language, its interpreter and what each letter prints, the two-halves counter read |
| `Wrappers` | the option type the others share |
| `Capture` | the security-state and scan-mode flops of the top level |

Runs are finite sequences of events folded by a total step function, so a statement about every
run is a statement about every event sequence. Histories (logs, samples, counts) are part of the
state where a property speaks about the past; the code never reads them.

## Findings

- The bridge is deadlock free exactly for clients that keep at most 1023 read commands unanswered.
  The comment at tcp_server.c:24-25 asks for a buffer larger than the client's; that is the same
  bound, with the one slot the ring never uses.
- Commands keep moving inside the window even while the client goes on writing
  (`CommandsKeepMoving`); answers need not. The loop that receives from the socket runs until it
  finds the socket empty, so a client that never lets it be gets no answer at all, however small its
  window and however fair the schedule (`AnswersMayNeverCome`).
- `intr_count++` loses an increment exactly when a macro's store finds another value than its load
  took (`CountingUnderPreemption`); with the installed priorities that happens (`IncrementIsLost`).
- The DLEN word is captured on the negative edge and the read completes on the positive one, so a
  responder that changes its data in between makes the visit count on a word other than the one it
  read; `DlenOfVisit` gives the exact condition.
- The interrupt macro restores `mstatus` by setting bits only. That is enough because every trap
  out of code with interrupts enabled finds MPIE and MPP to be all ones; for any other value it is
  not (`OrRestoreSuffices` is an equivalence).
- A bit-flip mask outlives a change of the injection mode: the first mailbox write after a switch
  from double to single errors, or to none, can still be lost to the older mask. `StaleMask` gives
  the runs, `WriteDecodes` what decides the next write in any run.
- A DATAOUT visit entered out of order does reset EXECUTE if a done-flag reset arrives in its last
  read and the no-lock done flag is not set when the read completes; `DataoutVisit` gives this exact
  condition. One command resets both done flags, so a latched no-lock access does not prevent it:
  `OutOfOrderResetsExecute` reaches the case with and without one.
- The write-one-to-clear data of an error access is cleared on the negative edge of a cycle with PREADY
  high. A responder that holds PREADY over the whole cycle therefore gets zero written where it had
  reported errors; only one that raises it after the negative edge gets its bits back
  (`ErrorWriteExactly`, and `ErrorDetourRun` for both kinds).
- The state between lock and command, `S_APB_PRE_WR_CMD`, is never entered (`NeverBeforeCommand`).
- The preload and dump loops never end exactly if no 32-bit address of the start's alignment lies
  beyond the last address asked for (`LoopStopsExactly`).
- `whisperPrintDecimal` does not print INT_MIN readably, and octal zero prints nothing; the round
  trips hold exactly for the other values.

## Model

| member | source | states |
|---|---|---|
| RingBuffer.RawRing.FullAndEmpty | src/mcu/test_suites/libs/tcp_server/tcp_server.c:49-59 | the full and empty tests decide exactly whether the queue between the pointers holds 1023 bytes or none, in both pointer orders |
| RingBuffer.RawRing.StoreKeepsQueue | src/mcu/test_suites/libs/tcp_server/tcp_server.c:64-65 | writing the slot at the write pointer disturbs no unread byte |
| RingBuffer.RawRing.PublishWriteAppends | src/mcu/test_suites/libs/tcp_server/tcp_server.c:65-66 | moving the write pointer of a ring that is not full appends the stored byte, across the wrap too |
| RingBuffer.RawRing.PublishReadDropsHead | src/mcu/test_suites/libs/tcp_server/tcp_server.c:76-77 | moving the read pointer of a ring that is not empty removes exactly the oldest byte, the one loaded |
| RingBuffer.TcpBuf.constructor | src/mcu/test_suites/libs/tcp_server/tcp_server.c:81-87 | a new ring is an empty queue |
| RingBuffer.TcpBuf.IsFull | src/mcu/test_suites/libs/tcp_server/tcp_server.c:49-55 | true exactly when the queue holds 1023 bytes |
| RingBuffer.TcpBuf.IsEmpty | src/mcu/test_suites/libs/tcp_server/tcp_server.c:57-59 | true exactly when the queue is empty |
| RingBuffer.TcpBuf.TryPutByte | src/mcu/test_suites/libs/tcp_server/tcp_server.c:61-70 | one turn of the put loop appends the byte exactly if there is room and otherwise changes nothing |
| RingBuffer.TcpBuf.GetByte | src/mcu/test_suites/libs/tcp_server/tcp_server.c:72-79 | takes the oldest byte, or reports an empty queue and changes nothing |
| JtagDpi.BitbangMeaning | src/mcu/test_suites/libs/jtagdpi/jtagdpi.c:82-109 | a byte moves the pins exactly when the protocol's encoder could have sent it, and then to the encoded levels |
| JtagDpi.JtagContext.constructor | src/mcu/test_suites/libs/jtagdpi/jtagdpi.c:43-58 | the signals start in the unplugged state |
| JtagDpi.JtagContext.Execute | src/mcu/test_suites/libs/jtagdpi/jtagdpi.c:79-121 | one command byte: pins by the decoder, an answer for R and nothing else, the client closed exactly for Q, an exit exactly for a byte outside the protocol, a full output ring spins |
| JtagDpi.JtagContext.Tick | src/mcu/test_suites/libs/jtagdpi/jtagdpi.c:186-210 | a tick consumes at most one byte, samples TDO first, and answers R with that sample |
| Bridge.NextKeepsInv | src/mcu/test_suites/libs/tcp_server/tcp_server.c:308-370 | every step of server, host or client keeps every sent byte and every answer in exactly one place, in order |
| Bridge.RingsRefineQueues | src/mcu/test_suites/libs/tcp_server/tcp_server.c:61-79 | with check, access and publish interleaved freely, each ring changes only by its producer's append or its consumer's removal of the head |
| Bridge.EndToEndOrder | src/mcu/test_suites/libs/jtagdpi/jtagdpi.c:63-121 | over every interleaving the executed commands are the first bytes sent, the pins their fold, and the client has read a prefix of the answers |
| Bridge.AnswerAt | src/mcu/test_suites/libs/jtagdpi/jtagdpi.c:94-115 | answers correspond one to one, in order, to read commands |
| Bridge.ClientReadsItsTick | src/mcu/test_suites/libs/jtagdpi/jtagdpi.c:186-196 | the i-th byte the client reads is the TDO sampled at the tick that consumed its i-th R |
| BridgeStop.StopsExactly | src/mcu/test_suites/libs/jtagdpi/jtagdpi.c:82-121 | in every run the host has stopped if and only if the last byte it executed is none of 0 to 7, r to u, R, B, b |
| BridgeStop.PoliteClientIsServed | src/mcu/test_suites/libs/jtagdpi/jtagdpi.c:82-121 | a client that sends only those bytes is never dropped, in any run |
| BridgeStop.SamplesAreOffered | src/mcu/test_suites/libs/jtagdpi/jtagdpi.c:186-196 | the TDO samples of a run are the values its ticks began with, one a tick |
| BridgeDeadlock.HostBlockedNeedsWindow | src/mcu/test_suites/libs/tcp_server/tcp_server.c:61-70 | a host spinning on a full output ring has 1024 unanswered reads behind it |
| BridgeDeadlock.NoDeadlockBelow | src/mcu/test_suites/libs/tcp_server/tcp_server.c:24-25 | inside a window of 1023 neither a deadlock nor a spinning host is reachable |
| BridgeDeadlock.DeadlockedRun | src/mcu/test_suites/libs/tcp_server/tcp_server.c:359-369 | a run inside a window of 1024 that blocks both threads |
| BridgeDeadlock.DeadlockFreeExactly | src/mcu/test_suites/libs/tcp_server/tcp_server.c:24-25 | for every window: no reachable deadlock if and only if the window is below 1024 |
| BridgeDeadlock.DeadlockIsForever | src/mcu/test_suites/libs/tcp_server/tcp_server.c:61-70 | no later step of anyone ends a deadlock |
| BridgeLiveness.StepMoves | src/mcu/test_suites/libs/tcp_server/tcp_server.c:328-370 | inside the window every step moves a byte, or brings the thread that must move one nearer to it, but for the step that executes a byte outside the protocol's continuing ones |
| BridgeLiveness.EverythingIsAnswered | src/mcu/test_suites/libs/tcp_server/tcp_server.c:328-370 | inside the window, once the client stops writing, every fair schedule executes all commands and delivers all answers |
| BridgeLiveness.PoliteClientIsAnswered | src/mcu/test_suites/libs/tcp_server/tcp_server.c:328-370 | the same for a client that sends only bytes that write, reset, read or blink, with no exception for a stopped host |
| BridgeStreaming.CommandsKeepMoving | src/mcu/test_suites/libs/tcp_server/tcp_server.c:328-370 | inside the window every byte sent is executed within a bounded number of fair rounds, while the client goes on writing and reads as it likes |
| BridgeStreaming.PoliteCommandsAreExecuted | src/mcu/test_suites/libs/tcp_server/tcp_server.c:328-370 | the same for such a client, with no exception for a stopped host: its j-th byte is the j-th command executed |
| BridgeStarvation.ReceivingStarvesDraining | src/mcu/test_suites/libs/tcp_server/tcp_server.c:359-369 | as long as the socket is never found empty, nothing leaves the output ring and nothing more reaches the client |
| BridgeStarvation.AnswersMayNeverCome | src/mcu/test_suites/libs/tcp_server/tcp_server.c:359-369 | for every n a run inside a window of one that gives everyone n fair rounds after an answer is ready, and delivers none |
| BridgeStarvation.LeavesLoopsEmpty | src/mcu/test_suites/libs/tcp_server/tcp_server.c:328-370 | the server waits again only after finding the output ring empty, drains only after finding the socket empty, and retries a send that would block |
| Hart.OrRestoreSuffices | src/integration/test_suites/libs/caliptra_isr/caliptra_isr.c:719 | the set-only restore gives back the saved mstatus, whatever the service left, if and only if MPIE and MPP were all ones; every entry with interrupts on makes them so |
| Hart.TrapThenMret | src/integration/test_suites/libs/caliptra_isr/caliptra_isr.c:717-724 | trap entry and mret together give back the interrupt enable, and all of mstatus exactly if its trap fields were what mret leaves |
| InterruptRuns.StatementKeepsFrame | src/integration/test_suites/libs/caliptra_isr/caliptra_isr.c:659-720 | each statement of the macro takes what holds before it to what holds before the next |
| InterruptRuns.NextKeepsInv | src/integration/test_suites/libs/caliptra_isr/caliptra_isr.c:645-725 | every trap, statement, return and thread step keeps each stacked routine's saved context intact |
| InterruptRuns.ContextIsRestored | src/integration/test_suites/libs/caliptra_isr/caliptra_isr.c:710-725 | in every run a routine about to return finds meicurpl, mepc, mstatus and mie as its trap left them, and resumes the interrupted code |
| InterruptRuns.DeliveredExactly | src/integration/test_suites/libs/caliptra_isr/caliptra_isr.c:645-725 | an external interrupt is taken exactly if interrupts and external interrupts are on and its priority is above meicurpl, a local one exactly if enabled; what starts, and where it will resume |
| InterruptRuns.EnablesComeBack | src/integration/test_suites/libs/caliptra_isr/caliptra_isr.c:719-720 | the last restore puts back the software, timer and external enables the service may have cleared, and not that of correctable errors |
| InterruptBounds.NestingIsBounded | src/integration/test_suites/libs/caliptra_isr/caliptra_isr.c:671-678 | for any priority table the macros in progress climb strictly in priority: at most 15, plus one short handler |
| InterruptBounds.InitNesting | src/integration/test_suites/libs/caliptra_isr/caliptra_isr.c:82-113 | with the table and vectors the firmware installs, at most two macros nest, plus one short handler |
| InterruptBounds.InitTables | src/integration/test_suites/libs/caliptra_isr/caliptra_isr.c:82-113 | the priorities of all 32 vectors as literals, and which vectors run the macro |
| InterruptBounds.InitAcceleratorPriorities | src/integration/test_suites/libs/caliptra_isr/caliptra_isr.c:221-232 | vectors 1 to 12 get their priorities, the rest is untouched |
| InterruptBounds.InitPeripheralPriorities | src/integration/test_suites/libs/caliptra_isr/caliptra_isr.c:233-242 | vectors 13 to 22 get their priorities, the rest is untouched |
| InterruptBounds.InitPriorities | src/integration/test_suites/libs/caliptra_isr/caliptra_isr.c:220-245 | the set-up writes exactly the priority table the nesting bound is about |
| InterruptBounds.InitGateways | src/integration/test_suites/libs/caliptra_isr/caliptra_isr.c:261-271 | exactly the vectors with a priority above zero are enabled, all gateways are level and clear |
| InterruptBounds.NextKeepsCount | src/integration/test_suites/libs/caliptra_isr/caliptra_isr.c:681 | every step keeps, for every stacked routine, that the counter never fell below what it found plus its own increment |
| InterruptBounds.CountingUnderPreemption | src/mcu/tb/caliptra_mcu_top_tb_services.sv:267-275 | intr_count rises by at least the outermost and at most all increments, by all if and only if no store found it other than the value loaded; isr_active is the number of macros between their two writes, at most 15 |
| InterruptLoss.IncrementIsLost | src/integration/test_suites/libs/caliptra_isr/caliptra_isr.c:681 | a run with the installed table in which two macros count and intr_count rises by one |
| InterruptCore.Core.IsrMacro | src/integration/test_suites/libs/caliptra_isr/caliptra_isr.c:645-725 | the macro returns with the four CSRs as found; served is one plus exactly the macros of its three windows whose priority is above its own and above every macro around them, and the count rises by one plus those outside the window between load and store |
| InterruptCore.Core.Arrive | src/integration/test_suites/libs/caliptra_isr/caliptra_isr.c:645-725 | an arriving tree is served exactly as far as its priorities, the threshold, mstatus.mie and MEI allow; the count rises by exactly what is not lost between a load and a store; the interrupted code keeps pc, threshold, enables and interrupt bit |
| InterruptCore.Core.ArriveAll | src/integration/test_suites/libs/caliptra_isr/caliptra_isr.c:680-708 | the same for a sequence of arrivals |
| InterruptCore.AddedIsServed | src/integration/test_suites/libs/caliptra_isr/caliptra_isr.c:680-708 | what a tree adds to the count is at most what is served in it, equal if and only if no macro is served between the load and the store of another |
| InterruptCore.InitTableServes | src/integration/test_suites/libs/caliptra_isr/caliptra_isr.c:82-113 | with the installed table an error is served, alone and inside a notification's load-store window where one increment is lost, and a notification inside an error's service is not |
| ApbLanguage.StepInPhase | src/mcu/tb/caliptra_mcu_top_tb.sv:577-832 | every positive edge moves the master and the reference automaton in step, for any inputs |
| ApbLanguage.StepKeepsBlob | src/mcu/tb/caliptra_mcu_top_tb.sv:843-888 | the DATAIN words on the bus stay the words of fw_blob while later words are still being drawn |
| ApbLanguage.EdgeKeepsInv | src/mcu/tb/caliptra_mcu_top_tb.sv:475-497 | positive edge, negative edge and reset all keep the log inside the language |
| ApbResults.ExecuteOnce | src/mcu/tb/caliptra_mcu_top_tb.sv:723-729 | EXECUTE=1 is written at most once per reset epoch, through all detours |
| ApbResults.FirmwarePush | src/mcu/tb/caliptra_mcu_top_tb.sv:695-729 | each EXECUTE=1 follows CMD, DLEN and exactly 256 DATAIN words equal to fw_blob, DLEN being four times their number |
| ApbResults.BootLanguage | src/mcu/tb/caliptra_mcu_top_tb.sv:581-654 | the log of an epoch is a prefix of UDS words, field entropy words, stepping id, fuse-done, flow polls until clear, boot-go |
| ApbBoot.FlowPolledExactly | src/mcu/tb/caliptra_mcu_top_tb.sv:625-654 | in every run the transfer after fuse-done polls the flow status if and only if the breakpoint was high at the edge that completed fuse-done |
| ApbBoot.SteppingIsDrawn | src/mcu/tb/caliptra_mcu_top_tb.sv:854-861 | the stepping id written is the word drawn as its state is entered |
| ApbBoot.PushAfterSixReady | src/mcu/tb/caliptra_mcu_top_tb.sv:658-674 | in every run the wait for firmware ends with a lock poll exactly at the sixth ready positive edge in a row |
| ApbBoot.BootRun | src/mcu/tb/caliptra_mcu_top_tb.sv:577-729 | a run with the breakpoint set whose log is the whole language: 12 UDS words, 8 field entropy words, stepping id, fuse-done, a clear poll, boot-go, lock, CMD, DLEN, 256 words, EXECUTE=1 |
| ApbBoot.ExchangeRun | src/mcu/tb/caliptra_mcu_top_tb.sv:790-826 | for every n such a run goes on with DLEN n, n+1 words of DATAOUT, EXECUTE=0 and STATUS=1 |
| ApbErrors.SelectsExactly | src/mcu/tb/caliptra_mcu_top_tb.sv:581-829 | in every run a state that selects nothing selects a register exactly if asked, and which: fatal before non-fatal errors, both before bits left over and mailbox accesses |
| ApbErrors.NeverBeforeCommand | src/mcu/tb/caliptra_mcu_top_tb.sv:684-693 | the pause state before CMD is never entered in any run |
| ApbErrors.ErrorWriteExactly | src/mcu/tb/caliptra_mcu_top_tb.sv:280-293 | the write-one-to-clear access carries the captured bits if and only if PREADY was low at the negative edge before it completed, and zero otherwise; a non-fatal one clears both done flags |
| ApbErrors.ErrorReadExactly | src/mcu/tb/caliptra_mcu_top_tb.sv:280-289 | what an error read captures, and that a loss of power clears it |
| ApbErrors.ErrorDetourRun | src/mcu/tb/caliptra_mcu_top_tb.sv:737-788 | for any bits, runs in which the non-fatal register reports them and gets zero, or them, written back |
| ApbErrors.FatalReadCycles | src/mcu/tb/caliptra_mcu_top_tb.sv:737-764 | a fatal pulse makes the master read the register, keep the bits and stop |
| ApbErrors.ErrorIsFinal | src/mcu/tb/caliptra_mcu_top_tb.sv:825-829 | in the error state nothing more is transferred until a reset, and the captured bits are kept |
| ApbErrors.ResetIsPowerUp | src/mcu/tb/caliptra_mcu_top_tb.sv:484-497 | a reset in any state at any edge leaves the power-up registers; only firmware words, stepping word, clock and captured bits survive |
| ApbErrors.CapturedBitsWrittenBack | src/mcu/tb/caliptra_mcu_top_tb.sv:737-772 | bits kept over a reset are written back to the fatal register from the error wait, on the same condition |
| ApbErrors.NoLockVisit | src/mcu/tb/caliptra_mcu_top_tb.sv:737-819 | an access without the lock reads DLEN and DATAOUT, takes no lock and returns to the error wait |
| ApbErrors.CommandsLatch | src/mcu/tb/caliptra_mcu_top_tb.sv:335-358 | out-of-order and no-lock commands are remembered from any state until the last word of a visit |
| ApbErrors.NoSecondStatus | src/mcu/tb/caliptra_mcu_top_tb.sv:790-799 | data that stays available after STATUS=1 is not acknowledged again, however long |
| ApbHandshake.HandshakeHolds | src/mcu/tb/caliptra_mcu_top_tb.sv:935-1050 | in every run PENABLE implies PSEL, and from selection until PREADY every half cycle drives the same select, address, direction and (but for the error registers) write data, with PENABLE from the first rising edge on |
| ApbHandshake.CompletedAsSetUp | src/mcu/tb/caliptra_mcu_top_tb.sv:843 | the transfer that PREADY completes is the one that was selected, with its address, direction and write data |
| ApbHandshake.AccessNeedsSetup | src/mcu/tb/caliptra_mcu_top_tb.sv:484-497 | in every stretch of a run that starts with PENABLE low, an access cycle at the end has an earlier setup cycle, and everything between the two is an access cycle of that same transfer |
| ApbMailbox.DataoutVisit | src/mcu/tb/caliptra_mcu_top_tb.sv:806-819 | a visit reads DATAOUT exactly dlen+1 times; where it goes when begun out of order, exactly |
| ApbDetour.OutOfOrderResetsExecute | src/mcu/tb/caliptra_mcu_top_tb.sv:806-808 | a run in which a visit begun out of order, with or without a no-lock access latched too, goes on without a reset and does reset EXECUTE |
| ApbMailbox.DlenHolds | src/mcu/tb/caliptra_mcu_top_tb.sv:475-482 | dlen does not move during a visit |
| ApbMailbox.DlenOfVisit | src/mcu/tb/caliptra_mcu_top_tb.sv:475-482 | dlen is the word the DLEN read of the visit returned if and only if the negative edge in that cycle, or an earlier one, had captured it |
| Ecc.DotLinear | src/integration/testbench/caliptra_ss_top.sv:1643-1653 | each masked parity is linear over exclusive or |
| EccCode.CodewordChecks | src/mcu/tb/caliptra_mcu_top_tb_services.sv:1345-1356 | every encoded word satisfies all seven parity equations |
| EccCode.Column | src/mcu/tb/caliptra_mcu_top_tb_services.sv:1347-1353 | the masks are the binary digits of distinct Hamming positions |
| EccCode.CodeDistance | src/mcu/tb/caliptra_mcu_top_tb_services.sv:1345-1356 | codewords of different data words differ in at least four bits |
| EccCode.ZeroShortcut | src/integration/testbench/caliptra_ss_top.sv:1529 | storing zero for a zero word agrees with the encoder |
| EccCode.FlipsDecode | src/mcu/tb/caliptra_mcu_top_tb_services.sv:1345-1356 | for every word and every mask of at most two bits: no flip is clean, one is corrected, two are flagged |
| MailboxInjection.GeneratorMeetsConstraint | src/mcu/tb/caliptra_mcu_top_tb_pkg.sv:44-46 | the mask has exactly one or two set bits as asked, at the positions given |
| MailboxInjection.NeverMiscorrected | src/mcu/tb/caliptra_mcu_top_tb_services.sv:661-689 | in every run every written location decodes to its word or is flagged |
| MailboxInjection.WriteDecodes | src/mcu/tb/caliptra_mcu_top_tb_services.sv:679-688 | the next write decodes by the mode in force when the mask register was last loaded |
| MailboxInjection.StaleMask | src/mcu/tb/caliptra_mcu_top_tb_services.sv:661-689 | runs that end in single mode, or with injection off, and whose next write of any word is lost to a double flip |
| MailboxInjection.SingleModeLosesNothing | src/mcu/tb/caliptra_mcu_top_tb_services.sv:276-281 | without a double-bit command every location decodes to its word |
| MailboxInjection.ModeExactly | src/mcu/tb/caliptra_mcu_top_tb_services.sv:276-281 | in every run the mode is single, or double, exactly if the last reset or command was the one that sets it |
| MailboxInjection.Injector.Negedge | src/mcu/tb/caliptra_mcu_top_tb_services.sv:276-281 | the mode register |
| MailboxInjection.Injector.Posedge | src/mcu/tb/caliptra_mcu_top_tb_services.sv:679-688 | RAM write through the old mask, then the mask register |
| Dccm.SplitIsBijective | src/integration/testbench/caliptra_ss_top.sv:1655-1666 | for 2, 4 and 8 banks, word addresses and cells correspond one to one |
| Dccm.AddressLayout | src/integration/testbench/caliptra_ss_top.sv:1655-1666 | the bank in the bits above the byte offset, the index above the bank, for each number of banks |
| Dccm.LoopStopsExactly | src/integration/testbench/caliptra_ss_top.sv:1527-1530 | the 32-bit loops end if and only if an address of the start's alignment lies beyond the end |
| Dccm.LastWordWins | src/integration/testbench/caliptra_ss_top.sv:1527-1530 | a cell ends as the codeword of the last address mapped to it, for any range |
| Dccm.OtherCellsKept | src/integration/testbench/caliptra_ss_top.sv:1527-1530 | a cell no preloaded address maps to keeps its word |
| Dccm.WordBits | src/integration/testbench/caliptra_ss_top.sv:1528 | words are little-endian: which image byte is which eight bits |
| Dccm.RangeInImage | src/integration/testbench/caliptra_ss_top.sv:1513-1524 | the preload's first and last address are the last two words of the image, byte by byte |
| Dccm.BankedAgreesWithFlat | src/integration/testbench/caliptra_ss_top.sv:1693-1731 | after a preload inside the memory, a dump whose words in the memory were all preloaded prints exactly the words of the flat image |
| Dccm.WhatIsCovered | src/integration/testbench/caliptra_ss_top.sv:1527-1530 | such are the half-open dump of the very range preloaded, every part of it, and every dump after a full preload |
| Dccm.BankedMemory.SlamDccmRam | src/integration/testbench/caliptra_ss_top.sv:1544-1566 | exactly the cell of the address changes |
| Dccm.BankedMemory.PreloadDccm | src/integration/testbench/caliptra_ss_top.sv:1504-1531 | the loop stores what the specification says, address by address; nothing if the start lies outside |
| Dccm.BankedMemory.DumpSignature | src/integration/testbench/caliptra_ss_top.sv:1684-1734 | line k, for address begin + 4k below the end: the first 32 bits of the cell whose address is the address's word inside the memory, the flat word elsewhere; as many lines as the range has steps |
| Dccm.HasCell | src/integration/testbench/caliptra_ss_top.sv:1655-1666 | every address inside the memory has its cell, so the dump's clause about cells speaks of every such line |
| Dccm.PreloadThenDump | src/integration/testbench/caliptra_ss_top.sv:1504-1734 | the two tasks in sequence print the flat image, for the same dumps |
| Dccm.SlamThenDump | src/integration/testbench/caliptra_ss_top.sv:1544-1719 | a codeword slammed at an address is printed there by a dump over it, whatever the flat image holds |
| Numerals.NumeralRoundTrip | src/integration/test_suites/libs/printf/printf.c:47-53 | digit strings read back, and have no leading zero |
| Numerals.NumeralIsCanonical | src/integration/test_suites/libs/printf/printf.c:47-53 | every digit string without leading zero is what is printed for the number it reads as |
| Numerals.UnsignedRoundTrip | src/integration/test_suites/libs/printf/printf.c:41-63 | unsigned fields read back for every value, width and pad; the width is the larger of width and length |
| Numerals.SignedRoundTrip | src/integration/test_suites/libs/printf/printf.c:66-99 | signed fields read back if and only if the value is not INT_MIN; their width likewise |
| Numerals.HexAndOctalRoundTrip | src/integration/test_suites/libs/printf/printf.c:113-137 | hexadecimal reads back always, octal if and only if the value is not zero |
| Console.Port.Puts | src/integration/test_suites/libs/printf/printf.c:30-38 | the string, then a newline |
| Console.Port.Collect | src/integration/test_suites/libs/printf/printf.c:47-53 | the buffer holds the decimal in reverse and never more than ten characters |
| Console.Port.PrintUnsigned | src/integration/test_suites/libs/printf/printf.c:41-63 | prints the padded decimal; the count leaves out the padding |
| Console.Port.PrintDecimal | src/integration/test_suites/libs/printf/printf.c:66-99 | prints sign, padding, decimal; the count includes the sign |
| Console.Port.PrintOctal | src/integration/test_suites/libs/printf/printf.c:113-124 | the eight-bit loop ends by wrap-around having printed the significant octal digits |
| Console.Port.PrintHex | src/integration/test_suites/libs/printf/printf.c:125-137 | the eight-bit loop ends by wrap-around having printed the hexadecimal numeral |
| Console.Port.PrintInt | src/integration/test_suites/libs/printf/printf.c:102-141 | the base selects the printer; an unknown base prints nothing and returns -1 |
| Printf.ParseUnparse | src/integration/test_suites/libs/printf/printf.c:165-211 | every list of directives is the reading of the format that writes it |
| PrintfLetters.AnyConversion | src/integration/test_suites/libs/printf/printf.c:189-211 | any zeros, perhaps a dash, a star or digits, then a letter: the conversion read, its pad and width |
| PrintfLetters.EndOfFormat | src/integration/test_suites/libs/printf/printf.c:171-211 | a format that ends inside a directive is cut off, one that ends after the % is not |
| PrintfLetters.HexPrints | src/integration/test_suites/libs/printf/printf.c:221-224 | %x and %X print the shortest upper-case numeral that reads back, in base 16, as the unsigned word; all of it counts |
| PrintfLetters.OctalPrints | src/integration/test_suites/libs/printf/printf.c:226-228 | %o the same in base 8, and nothing for zero |
| PrintfLetters.UnsignedPrints | src/integration/test_suites/libs/printf/printf.c:217-219 | %u prints exactly the missing pad characters and the shortest decimal of the unsigned word; the padding does not count |
| PrintfLetters.SignedPrints | src/integration/test_suites/libs/printf/printf.c:213-215 | %d prints the sign, exactly the missing pad characters and the shortest decimal of the magnitude, for every word but INT_MIN |
| PrintfLetters.OthersPrint | src/integration/test_suites/libs/printf/printf.c:230-242 | %c the character of code word mod 256, %s the string, any other letter nothing |
| PrintfLetters.ArgumentsInOrder | src/integration/test_suites/libs/printf/printf.c:200-242 | directives print in order, each from the argument after those used before it, one for each star and each conversion |
| PrintfLetters.CountsAddUp | src/integration/test_suites/libs/printf/printf.c:160-255 | their counts add up |
| PrintfLetters.HexOf255 | src/integration/test_suites/libs/printf/printf.c:221-224 | the format %x prints 255 as FF and returns 2 |
| Printf.Accounting | src/integration/test_suites/libs/printf/printf.c:160-255 | returned count, padding characters and %% escapes add up to the characters written |
| Printf.PrintfImpl | src/integration/test_suites/libs/printf/printf.c:160-255 | output and count are those of the format's directives; the pointer would pass the terminator exactly if a directive is cut off |
| Printf.SkipFlags | src/integration/test_suites/libs/printf/printf.c:189-198 | zeros, then one dash; the pad character |
| Printf.ReadWidth | src/integration/test_suites/libs/printf/printf.c:200-209 | a star or a decimal width |
| Printf.Convert | src/integration/test_suites/libs/printf/printf.c:211-242 | what each conversion letter prints and counts |
| Mcycle.GetMcycle | src/integration/test_suites/libs/printf/printf.c:305-318 | against every growing counter: terminates, returns its exact value at the last low-half read, retries only on a carry and at most once per carry |
| Mcycle.AtMostOneRetry | src/integration/test_suites/libs/printf/printf.c:310-314 | fewer than 2^32 ticks over two iterations: one of the two is untorn |
| Capture.HistoryDecides | src/mcu/rtl/caliptra_mcu_top.sv:578-604 | in every run the flops hold the first security sample since reset, one clock apart, and the last two scan samples |
| Capture.UnlocksAtMostOnce | src/mcu/rtl/caliptra_mcu_top.sv:578-607 | within a reset epoch the visible debug state changes at most once, to unlocked |
| Capture.ScanRiseIsAnnounced | src/mcu/rtl/caliptra_mcu_top.sv:610-615 | every rise of the latched scan mode, whatever the debug state, happens at a clock after a cycle with the scan switch pulse, which ends with it |
| Capture.UnlockIsAnnounced | src/mcu/rtl/caliptra_mcu_top.sv:606-617 | every visible unlock, whatever the scan mode, happens at a clock after a cycle with the debug switch pulse, which ends with it |
| Capture.RiseIsAnnounced | src/mcu/rtl/caliptra_mcu_top.sv:781 | debug values replace the device secrets only after a cycle with the switch pulse |
| Capture.PulseIsOneCycle | src/mcu/rtl/caliptra_mcu_top.sv:613-619 | no pulse lasts two clocks, and an uninterrupted one is followed by its mode |
| Capture.ScanModeExactly | src/mcu/rtl/caliptra_mcu_top.sv:594-611 | mode and switch pulse as equivalences over the last two clocks since power-up |
| Capture.OutputsExactly | src/mcu/rtl/caliptra_mcu_top.sv:606-619 | in every run all outputs from the sampled history: debug unlocked, life cycle, scan mode, secret override and switch pulse, each exactly |
| Capture.OneCycleScanNeverLatches | src/mcu/rtl/caliptra_mcu_top.sv:594-615 | a scan input of one clock, anywhere in any run, pulses the switch until the next clock or a loss of power and never sets the mode |
| Capture.CaptureFlops.React | src/mcu/rtl/caliptra_mcu_top.sv:578-604 | the two clocked blocks against the step function |

## Left out

- Bridge granularity: full/empty check, byte access and pointer publish are atomic. The C code
  publishes in two stores (increment, then remainder) and re-reads the other pointer inside the full
  test; on single memory accesses the value 1024 is briefly visible and the results are not claimed.
- Bridge surroundings: sockets, select, thread creation and errors are replaced by one client
  channel and one connection; a quit command or a protocol violation stops the run, a disconnect in
  the stream is not modelled.
- The body of `server_create` is steps of a state machine (`Bridge.ServerNext`), not a method: its
  loops only have a meaning interleaved with the other thread.
- InterruptBounds.CountingUnderPreemption: intr_count is unbounded; the 32-bit register holds it
  modulo 2^32.
- InterruptRuns.ContextIsRestored: the service macros, printing inside the macro and the bodies of
  the timer and correctable-error handlers are one point each; they do not touch the CSRs modelled.
  Code outside interrupt routines may change the CSRs only between routines.
- The exception handler, the direct-mode `std_rv_isr` and the firmware's other set-up of CSRs.
- APB blocks on values: the always blocks of the test bench are functions of the old state and one
  edge's inputs, not methods, because nonblocking assignments all read the state before the edge.
- ApbHandshake.HandshakeHolds: speaks of stretches without a reset, which aborts the transfer under
  way; write data is not claimed stable for the write-one-to-clear error registers, whose word is
  cleared on the negative edge of the finishing cycle.
- APB inputs: the delayed error pulses are arbitrary inputs instead of 16-bit counters; random words
  are inputs, the stepping id's held from the entry of its state.
- The numbers of UDS and field entropy words come from the register map (12 and 8 registers); the
  header that defines the macros is not part of this model.
- APB power: a loss of power without a reset, which the test bench never makes, clears the
  write-one-to-clear data at the falling clock edge instead of at once.
- EccCode.FlipsDecode: the decoder is the syndrome decoder of the encoder's own masks; the hardware
  decoder in the memories is not part of this model. That the mailbox writer sends codewords is
  assumed of its RTL, which is not part of this model.
- MailboxInjection: with which probability a write is hit is left open; the first mask after
  power-up is zero.
- Dccm: addresses of 14 bits as configured, all three numbers of banks; the text form of a dumped
  word (eight hexadecimal digits), the file handling, and the mailbox and ICCM preloads, which
  repeat the same loop. `get_iccm_bank` tests the DCCM bank macro in its first branch.
- Dccm.BankedMemory.PreloadDccm: requires an end address for which the loop ends.
- Printf.PrintfImpl: width is unbounded (overflowing an int is undefined in C); where a directive is
  cut off the model stops, the C code reads on behind the terminator. Arguments of the wrong type
  and missing arguments are not modelled.
- Console.Port.PrintDecimal: for INT_MIN the negation is taken to wrap, as the compiled code does;
  in C it is undefined.
- Mcycle.GetMcycle: the counter does not wrap at 2^64.
- Disassemblers, CSR wrappers, coverage and assertion files, vendor interconnect, core instances,
  force/release statements, logging, watchdog and random-reset helpers.
