# A verified model of the RP2040 simulator core

This project models six parts of the simulator in Dafny and proves what they do
over whole runs. Each part comes twice: as a *specification* on values
(datatypes and functions) about which the theorems are proved, and, where the
C++ changes things in place, as a *class* or a loop whose methods are proved to
follow that specification exactly. A method whose contract reads
`View() == Spec(old(View()), ...)` is the link between the two.

## The parts

* **PIO state machines.** `PioMachine` is one clock of a state machine: stall
  states, autopull, autopush, delays, the shared IRQ byte. `PioReference` is a
  machine over unbounded streams that never stalls. `PioRefinement` and
  `PioLatency` prove that the real machine refines it, so FIFO depth, stalls and
  CPU timing never change the data; `PioLiveness` that data arrive. `PioSlices` and `PioLoopback` use that for
  the serialiser/deserialiser loop. `PioBlockModel` adds the four clock dividers
  and `PioRendezvous` the hand-over of events through an IRQ flag. `PioFifos`,
  `PioStateMachine` and `PioBlock` are the classes. `PioPaths` says which words
  of the shared memory a machine can come to execute; what the theorems ask of a
  program they ask of those words only. `PioMeaning`, `PioFlowMeaning` and
  `PioStallMeaning` say of each instruction word, and of each stall, what one clock
  does, in numbers.
* **ARMv6-M exceptions and arithmetic.** `ExceptionModel` has entry, return,
  priorities and selection; `ExceptionFrames` one entry and return;
  `Preemption` whole trees of nested preemptions; `PreemptionPriority` the
  nesting bound and the selection rule; `ExceptionMeaning` says all this in
  priority bytes, words of memory and bits; `CallStack` PUSH and POP; `Alu` carry
  chains and conditions. `MemoryObject`, `CpuObject` and `CpuCore` are the
  classes. The sections meant are B1.5, A2.2.1 and A6.3 of the ARMv6-M
  Architecture Reference Manual, DDI 0419.
* **PIO assembler and disassembler.** `AsmText` (tokeniser, numerals), `AsmExpr`
  (expressions), `AsmEncode` (operands to words), `AsmPasses` and `AsmLabels`
  (two passes), `PioDisasm` (printing), `PioDisasmTokens`, `PioReadBack`,
  `PioRoundTrip` and `AsmEmitted` (that they undo each other). `AsmMeaning`,
  `AsmNumerals` and `AsmDirectives` say what names, numerals and directives stand
  for. `ExprEval` and
  `Assembler` are the classes. The instruction set is that of section 3.4 of the
  RP2040 datasheet.
* **DMA controller.** `DmaTransfer` (addresses, one element), `DmaCopy` (what a
  run copies, interleaving), `DmaSniffer` (CRC), `DmaModel` (triggers, chaining,
  pacing, clocks), `DmaRuns` and `DmaRate` (whole runs), `DmaOutcome` (what
  memory holds after one), `DmaSniffRuns` (what the sniffer has seen),
  `DmaMeaning` and `DmaChecksums` (the same in bytes, clocks and bits),
  `DmaController` (the class, on the memory class).
* **UART, RTC and PWM.** `UartModel`/`UartLaws`/`UartMeaning`/`Uart`, `RtcModel`/`Rtc`,
  `PwmModel`/`Pwm`.

Words are integers below 2^32 with explicit wrap-around; `Words`, `WordLemmas`
and `Xors` hold shifts, bit reversal and exclusive or as arithmetic. Histories
(what was accepted, fed, transferred, wrapped) are extra record fields in the
specifications and ghost fields in the classes; no step reads them.

## Findings

Places where a promise needs a condition, each proved exactly:

* `jmp label` reaches its label unless a later `.define` rebinds the name
  (`AsmLabels.JumpFindsLabel`, with a concrete program in `RedefinitionMisleads`).
* The printed form of WAIT GPIO and WAIT PIN loses index bit 4
  (`PioRoundTrip.RoundTripIff`, `AsmEmitted.AssembledSurvives`).
* SVC ignores the current priority: entries stay ordered, and nesting within six,
  if and only if every SVC is executed where SVCall outranks the running
  exception (`PreemptionPriority.OrderedIff`, `NestingBounded`); without that a
  machine nests to any depth its stack has room for (`SvcBreaksBound`).
* A phase-correct PWM slice with TOP 0 leaves its range
  (`PwmModel.StaysInRange`), and one that starts at 0 has no wrap interrupt in
  its first period (`PwmModel.PeriodReturns`).

## Model

| member | source | states |
|---|---|---|
| PioLatency.LatencyInsensitive | src/pio/state_machine.cpp:367-433 | Two runs of a program from equal reference states, all that the machine can come to execute being admissible, with any FIFO depths, CPU access times, pins and IRQ flags: if the TX words written are comparable by prefix, so are the RX words produced; data never depend on depth, stalls or timing. |
| PioLatency.RunRefines | src/pio/state_machine.cpp:367-433 | Every run of clocks, CPU writes, reads and enables is some number of steps of a reference machine over an unbounded TX stream, and the run keeps the reachable-state invariant. |
| PioLatency.HappenRefines | src/pio/state_machine.cpp:367-433 | Each single event is invisible to the reference machine or is exactly one of its steps. |
| PioRefinement.TickRefines | src/pio/state_machine.cpp:117-298 | One clock of the real machine, in any of its four stall states, stutters or matches one reference step, and stays on the admissible path; a retired instruction, other than an IN completing a delayed push, matches exactly one. |
| PioPaths.TickLeads | src/pio/state_machine.cpp:52-69 | A clock leaves the program counter where it is or takes it to an address that can follow: the wrapped next one, a JMP address, any for a MOV or OUT to PC. |
| PioRefinement.ExecKeeps | src/pio/state_machine.cpp:117-354 | No instruction changes configuration, program, machine number, enable bit or FIFO depths. |
| PioLatency.RestartIsLegal | src/pio/state_machine.cpp:23-32 | A restarted machine satisfies the invariant and its reference state mentions neither FIFO depth. |
| PioLatency.NoSpuriousStall | src/pio/state_machine.cpp:367-433 | Without delay, WAIT or IRQ an enabled machine retires an instruction in every clock, unless an autopulling OUT or a PULL has no TX word or an autopushing IN or a PUSH no RX room. |
| PioLiveness.DataArrive | src/pio/state_machine.cpp:367-433 | Liveness under eventual fairness: in any run, once there have been 32 k clocks plus the first backlog in which the machine was enabled and not blocked, whatever came between, it has made the first k reference steps and their whole output is in the RX sequence. |
| PioLiveness.RunSteps | src/pio/state_machine.cpp:367-433 | Every run makes at least one reference step in 32 such clocks, once the delay or delayed push it began with is worked off; the other clocks never undo one. |
| PioLiveness.CanServe | src/pio/pio_fifo.h:26-38 | For a program with no WAIT or IRQ ahead, a CPU that empties the RX FIFO and offers the next TX word before every clock makes any number of such clocks, for every pair of FIFO depths of at least 1. |
| PioLoopback.LoopbackEchoes | src/pio/state_machine.cpp:199-259 | The wrapped `out x, n` / `in x, n` program with autopull and autopush at 32, n dividing 32, anything in the other 30 words, echoes every TX word in order under any back-pressure, at most three words behind; with opposite shift directions and n = 1 each word comes out bit-reversed. |
| PioSlices.OutGivesSlice | src/pio/state_machine.cpp:225-259 | What OUT takes from an OSR that has given k bits is bits k to k + n - 1 of the word in the shift direction. |
| PioSlices.InTakesSlice | src/pio/state_machine.cpp:199-223 | An IN of that slice extends the ISR to the first k + n bits of the word, or of its reversal when directions differ. |
| WordLemmas.BitReverseIsRev | src/pio/state_machine.cpp:13-19 | The five mask-and-shift stages compute the reversal of all 32 bits. |
| PioMeaning.JumpMeans | src/pio/state_machine.cpp:127-143 | One clock at a machine about to execute the word `jmp cond a`: it goes to a exactly if the plain relation on X, Y, the pin or the OSR count held before, a refill done first, and else to the next address; codes 2 and 4 count X or Y down, jumping or not; nothing else changes. |
| PioMeaning.CountdownLoop | src/pio/state_machine.cpp:127-143 | `a: jmp x-- a` with X = v is still at a with X = v - k after k <= v clocks, and has left with X = 0xFFFFFFFF after v + 1; the same for Y; whatever pins and flags do. |
| PioMeaning.DelayHolds | src/pio/state_machine.cpp:370-373 | While a delay runs, each clock changes only its count, whatever pins and flags do. |
| PioMeaning.ExecutedDelays | src/pio/state_machine.cpp:413-433 | An executed word leaves as many delay clocks as the low 5 - n bits of its field say, n being the side-set bits with the optional one. |
| PioMeaning.SetMeans | src/pio/state_machine.cpp:145-156 | `set` loads five bits into X or Y and goes on. |
| PioMeaning.MovMeans | src/pio/state_machine.cpp:158-197 | `mov d, op s` puts the source, complemented or bit-reversed, where d says, counts cleared for ISR and OSR, PC taken modulo 32, and changes nothing else; STATUS is all ones while the selected FIFO holds fewer than N words. |
| PioMeaning.InMeans | src/pio/state_machine.cpp:199-223 | `in s, n`: ISR and count afterwards in terms of division and remainder by powers of 2; at the threshold autopush hands it over, or waits for room. |
| PioFlowMeaning.OutMeans | src/pio/state_machine.cpp:225-259 | `out d, n`: the bits that leave and those that stay in terms of division and remainder; with autopull a used-up OSR is refilled first, or the machine waits. |
| PioFlowMeaning.PushMeans | src/pio/state_machine.cpp:261-278 | `push`, all four forms: what RX and ISR hold, and when it waits. |
| PioFlowMeaning.PullMeans | src/pio/state_machine.cpp:280-298 | `pull` without autopull, all four forms: what TX and OSR hold, X standing in with noblock, and when it waits. |
| PioFlowMeaning.WaitMeans | src/pio/state_machine.cpp:300-327 | `wait` goes on exactly in a clock that sees its level at the GPIO, pin or flag its index names, and takes a flag down after `wait 1 irq`. |
| PioFlowMeaning.IrqMeans | src/pio/state_machine.cpp:329-350 | The first clock of `irq set`, `irq clear` and `irq wait` on the flag that the index names. |
| PioFlowMeaning.FlagNamed | src/pio/state_machine.cpp:100-105 | The flag is the low three bits of an index below 16; from 16 on bit 2 picks the group of four and the machine's number is added inside it. |
| PioStallMeaning.OffMeans | src/pio/state_machine.cpp:367-369 | A disabled machine changes nothing and reports nothing. |
| PioStallMeaning.AutoPushMeans | src/pio/state_machine.cpp:375-384 | A machine in an autopush stall changes nothing while RX is full; then it pushes, empties the ISR, goes on and takes the delay of its IN. |
| PioStallMeaning.AutoPullMeans | src/pio/state_machine.cpp:385-394 | A machine in an autopull stall changes nothing while TX is empty; then the OUT runs on the word that came. |
| PioStallMeaning.PushAgain | src/pio/state_machine.cpp:261-278 | A blocked PUSH changes nothing while RX is full, and then pushes. |
| PioStallMeaning.PullAgain | src/pio/state_machine.cpp:280-298 | A blocked PULL changes nothing while TX is empty, and then takes the oldest word. |
| PioStallMeaning.WaitAgain | src/pio/state_machine.cpp:300-327 | A waiting WAIT goes on in the first clock that sees its level, taking the flag of `wait 1 irq`, and changes nothing before. |
| PioStallMeaning.IrqAgain | src/pio/state_machine.cpp:329-350 | A waiting IRQ goes on in the first clock in which its flag is down, and never raises it a second time. |
| PioStateMachine.StateMachine.Tick | src/pio/state_machine.cpp:367-433 | The in-place clock ends in exactly the state, flags and outcome of the specification used by the refinement theorem. |
| PioStateMachine.StateMachine.DoExec | src/pio/state_machine.cpp:117-354 | Running one non-injecting instruction in place changes registers, FIFOs and flags as specified and reports whether it completed. |
| PioStateMachine.StateMachine.DoIn | src/pio/state_machine.cpp:199-223 | IN shifts, counts and autopushes in place, or stalls for room, as specified. |
| PioStateMachine.StateMachine.DoOut | src/pio/state_machine.cpp:225-259 | OUT refills by autopull or stalls, then shifts and delivers, as specified. |
| PioStateMachine.StateMachine.DoIrq | src/pio/state_machine.cpp:329-350 | IRQ clears, raises once, and waits until the flag falls. |
| PioStateMachine.StateMachine.DoWait | src/pio/state_machine.cpp:300-327 | WAIT completes exactly when its source has its polarity, and a WAIT 1 IRQ clears the flag. |
| PioStateMachine.StateMachine.Restart | src/pio/state_machine.cpp:23-32 | Restart empties both shift registers, returns to the wrap bottom, and keeps X, Y and the FIFOs. |
| PioFifos.PioFifo.Push | src/pio/pio_fifo.h:26-31 | The circular buffer appends to the queue it stands for, exactly when it is not full. |
| PioFifos.PioFifo.Pop | src/pio/pio_fifo.h:32-38 | It gives and removes the oldest word, exactly when there is one. |
| PioFifos.PioFifo.SetDepth | src/pio/pio_fifo.h:18-19 | Changing the depth empties the queue. |
| PioFifos.PioFifo.Peek | src/pio/pio_fifo.h:40 | The oldest word without removing it, 0 if there is none. |
| PioIsa.Decode | src/pio/pio_decode.cpp:6-72 | Every decoded field is in range: addresses, indices and data below 32, counts 1 to 32, selectors below 8. |
| PioBlock.PioBlock.Tick | src/pio/pio_block.cpp:43-56 | One system clock of four machines on a shared IRQ byte is the specified fold, machine by machine. |
| PioBlock.PioBlock.Share | src/pio/pio_block.cpp:45-54 | One machine's divider and step leave the other machines unchanged but for the shared flags. |
| PioBlock.PioBlock.SetClkdiv | src/pio/pio_block.cpp:24-29 | An integer part of 0 divides by 65536; the accumulator restarts; other dividers stay. |
| PioBlockModel.RateLaw | src/pio/pio_block.cpp:43-56 | N enabled clocks after a divider restart step the machine exactly floor(256 N / (256 int + frac)) times and leave the remainder in the accumulator. |
| PioRendezvous.Rendezvous | src/pio/state_machine.cpp:300-350 | In every run of machines of which one can come to execute `irq wait f`, the others `wait 1 irq f`, and none anything else on flag f, from one shared memory or several: raises = consumes + flag, and producer completions never exceed consumes nor lag them by more than one. |
| PioRendezvous.NextMeets | src/pio/state_machine.cpp:329-350 | Each tick of any machine, FIFO access or foreign flag change keeps those counts. |
| PioRendezvous.TickHandover | src/pio/state_machine.cpp:300-350 | One tick of a consumer takes the flag or leaves it; one tick of the producer raises once and completes only after that; both stay in their roles. |
| PioRendezvous.BlockMeets | src/pio/pio_block.cpp:43-56 | Over every number of system clocks of the four-machine block, with any divider settings and pins, the counts of raises, takes and completions that its own ticks make keep the same relation. |
| PioRendezvous.BlockIsRun | src/pio/pio_block.cpp:43-56 | Those clocks are a run of the rendezvous: a tick of each machine whose divider is due, machine by machine, ending in the machines and flags of the block. |
| PioRendezvous.StartMeets | src/pio/pio_block.cpp:5-15 | A block that has not started, with the flag down, satisfies the invariant. |
| PioRendezvous.HandshakeMeets | src/pio/pio_block.cpp:5-15 | One shared memory `irq wait f; jmp 0; wait 1 irq f; jmp 2` gives those roles to machines that start at word 0 and at word 2. |
| PioRendezvous.HandshakeHappens | src/pio/state_machine.cpp:300-350 | There, from any such start, three clocks make exactly one raise, one take and one completion. |
| PioRendezvous.HandshakeBlockMeets | src/pio/pio_block.cpp:43-56 | Hence in every block with that one memory the counts keep their relation over any number of system clocks. |
| Preemption.PreemptionTransparent | src/core/cpu.cpp:179-270 | For any depth and any well-bracketed run of entries and returns, from Thread on MSP, Thread on PSP or Handler, every return restores r0-r12, LR, PC, flags, IPSR, SPSEL (of Thread contexts) and both exact stack pointers, and no suspended frame changes. |
| Preemption.ReturnResumes | src/core/cpu.cpp:229-270 | One entry and return around a handler that keeps r4-r11, the frame and the stack pointers. |
| Preemption.EntryTidy | src/core/cpu.cpp:185-227 | Stacking puts the frame below all suspended frames of both stacks and touches none of them. |
| ExceptionFrames.EntryReturn | src/core/cpu.cpp:179-270 | Entry followed by return gives back the interrupted context and the exact stack pointer, with and without 8-byte realignment. |
| ExceptionFrames.EntryStores | src/core/cpu.cpp:193-216 | Entry writes the eight-word frame at the 8-aligned pointer and no other byte. |
| RegisterModel.ReadsBack | src/core/registers.cpp:23-58 | Any register reads back what was written to it by number, SP word-aligned in the bank in use and PC even; the other fifteen and the other stack pointer stay. |
| RegisterModel.XpsrRoundTrip | src/core/registers.cpp:76-104 | Writing a stacked xPSR restores N, Z, C, V, T and IPSR, and bit 9 carries the realignment flag without disturbing them. |
| PreemptionPriority.SelectsLeast | src/core/cpu.cpp:162-177 | The exception chosen is the (priority, number)-least eligible one more urgent than execution, and none is chosen only if there is none. |
| PreemptionPriority.NestingBounded | src/core/cpu.cpp:154-183 | In every well-behaved run with active priorities left alone, of pending exceptions, HardFaults and SVCs executed where SVCall outranks, active exceptions and further nesting together never exceed six. |
| PreemptionPriority.OrderedIff | src/core/cpu.cpp:154-183 | In every such run, SVCs anywhere, each entry is more urgent than all that is active if and only if every SVC is executed where SVCall outranks the running exception. |
| PreemptionPriority.EntryUrgent | src/core/cpu.cpp:64-69 | An entry is strictly more urgent than everything active, exactly unless it is an SVC where SVCall does not outrank. |
| PreemptionPriority.ChainShort | include/exceptions.h:29-40 | Strictly increasing urgency allows at most six active exceptions, all distinct. |
| PreemptionPriority.IpsrIsMinimum | src/core/cpu.cpp:154-160 | The priority read from IPSR alone is the minimum over all active exceptions and, while PRIMASK is set, 0; 256 if nothing is active. |
| PreemptionPriority.SvcsNest | src/core/cpu.cpp:114-116 | From every state with room for n frames on the main stack, n nested SVCs are a legal, well-behaved run n deep that gives the registers back: without the guard only the stack bounds nesting. |
| PreemptionPriority.SvcBreaksBound | src/core/cpu.cpp:46-62 | A concrete machine, out of reset with its stack top, entry point, SVCall vector and the SVC instruction in ROM, does so for every n that fits into SRAM, each SVC standing at the program counter; above six they do not all meet the guard. |
| PreemptionPriority.SvcKeepsChain | src/core/cpu.cpp:114-116 | At one SVC: the active exceptions stay strictly ordered if and only if SVCall outranks the current one; inside SVCall they never do. |
| ExceptionMeaning.SelectionOnBytes | src/core/cpu.cpp:162-177 | On the priority bytes: the exception taken waits and is more urgent than the running code; no other such exception lies in a lower block of 64, or in the same block with a lower number; none is taken only if there is none. |
| ExceptionMeaning.BytesRank | include/exceptions.h:38-40 | Of two configurable exceptions the one with its byte below 64 m is strictly more urgent than one at or above it, and bytes in one block of 64 tie. |
| ExceptionMeaning.LowerBlockFirst | src/core/cpu.cpp:162-177 | If a waiting exception's byte is below 64 m, what is taken is NMI, HardFault or one whose byte is below 64 m too. |
| ExceptionMeaning.LockupIff | src/core/cpu.cpp:179-183 | A HardFault locks up without stacking exactly while NMI or HardFault is running; every other exception enters. |
| ExceptionMeaning.EntryMeans | src/core/cpu.cpp:185-227 | For every exception number: the eight words at sp - 32 - sp mod 8 in memory, the stacked status word bit by bit, no other byte, the return code in LR as a number, the branch to the word at vtor + 4 exc with bit 0 as Thumb bit, fifteen cycles. |
| ExceptionMeaning.EntryIff | src/core/cpu.cpp:193-227 | Entry succeeds if and only if that frame lies in SRAM and the vector is mapped and aligned; else it locks up. |
| ExceptionMeaning.ReturnIff | src/core/cpu.cpp:229-250 | A return succeeds if and only if the low four bits of the code are 1, 9 or 13 and the eight words are mapped; else nothing changes and it locks up. |
| ExceptionMeaning.ReturnCodeRecognised | include/exceptions.h:44-53 | Every code that entry leaves in LR is one that a branch in Handler mode takes for an exception return, and it names PSP exactly if the interrupted code used it. |
| ExceptionMeaning.BranchMeans | src/core/cpu.cpp:718-727 | A branch is an exception return exactly in Handler mode and to one of the last sixteen addresses; else it goes to the even address with bit 0 as Thumb bit. |
| ExceptionMeaning.SleepsOnExit | src/core/cpu.cpp:262-270 | A return to Thread mode with sleep-on-exit falls asleep; memory, cycles and pending bits stay. |
| ExceptionMeaning.BusMap | src/core/memory.cpp:90-135 | Address by address: what can be read and written, and which error comes first. |
| Alu.ExecuteMeans | src/core/cpu.cpp:478-524 | Each of ADDS, ADCS, SUBS, SBCS and CMP against the exact unsigned and signed result: destination alone written, N, Z, C and V in plain relations. |
| CpuCore.CpuDevice.HighestPending | src/core/cpu.cpp:162-177 | The scan loop returns the specified selection. |
| CpuCore.CpuDevice.CurrentPriority | src/core/cpu.cpp:154-160 | Execution priority from IPSR and PRIMASK. |
| CpuCore.CpuDevice.TakeException | src/core/cpu.cpp:179-227 | In-place entry: frame, banked SP, LR, IPSR, vector and cycles, or lockup, as specified. |
| CpuCore.CpuDevice.ExceptionReturn | src/core/cpu.cpp:229-270 | In-place return: frame loaded, registers, SP, mode and PC restored, or lockup. |
| CpuCore.CpuDevice.TakePending | src/core/cpu.cpp:64-69 | The start of a step clears the chosen pending bit and enters, or leaves the state alone. |
| CpuCore.CpuDevice.Arithmetic | src/core/cpu.cpp:479-524 | ADDS, SUBS, ADCS, SBCS and CMP on registers write the result and flags as specified. |
| CpuCore.CpuDevice.Push | src/core/cpu.cpp:692-705 | The store loop pushes the listed registers lowest first and moves SP only on success. |
| CpuCore.CpuDevice.Pop | src/core/cpu.cpp:706-731 | The load loop pops the listed registers, and PC by branch or exception return. |
| CpuObject.RegisterFile.WriteSp | src/core/registers.cpp:51-58 | Writing SP changes the banked pointer of the current mode, word-aligned, and not the other. |
| CpuObject.RegisterFile.Read | src/core/registers.cpp:23-29 | Register reads by number, SP banked. |
| CpuObject.RegisterFile.Write | src/core/registers.cpp:31-42 | Register writes by number, SP banked, PC through its own setter. |
| CpuObject.RegisterFile.WriteXpsr | src/core/registers.cpp:93-104 | Restoring xPSR sets flags, T and the exception number. |
| Alu.AddExact | src/core/alu.cpp:5-16 | Value and carry are the exact 33-bit sum; overflow holds exactly when the signed sum does not fit. |
| Alu.AddChainAdds | src/core/alu.cpp:5-16 | ADDS then ADCS over any number of limbs is the big-integer sum modulo 2^(32 n), C being the carry out. |
| Alu.SubChainSubtracts | src/core/cpu.cpp:487-507 | SUBS then SBCS is the difference modulo 2^(32 n), C set exactly when there is no borrow. |
| Alu.ConditionsAfterCompare | src/core/registers.cpp:109-126 | After CMP all fifteen condition codes decide exactly their signed, unsigned, sign or overflow relation. |
| CallStack.PushStores | src/core/cpu.cpp:692-705 | PUSH leaves the listed registers in ascending order from the new SP, lowest register lowest, and no other byte changed. |
| CallStack.CallReturns | src/core/cpu.cpp:692-731 | PUSH {list, LR}, any body that keeps SP and the frame, POP {list, PC}, in every mode: every listed register and SP are back, and execution is at LR with its Thumb bit or, in a handler with EXC_RETURN in LR, the exception return starts from those registers and that SP. |
| MemoryBus.ReadBack | src/core/memory.cpp:90-135 | A stored value of 1, 2 or 4 bytes reads back little-endian. |
| MemoryBus.StoreByte | src/core/memory.cpp:119-135 | A store changes exactly its own bytes, each to its digit of the value. |
| MemoryBus.StoreElsewhere | src/core/memory.cpp:119-135 | A store leaves every disjoint span as it was. |
| MemoryObject.Memory.ReadScalar | src/core/memory.cpp:90-117 | The read loop: misaligned, unmapped or the little-endian value. |
| MemoryObject.Memory.WriteScalar | src/core/memory.cpp:119-135 | The write loop: misaligned, unmapped, read-only, or the value stored in SRAM and nothing else changed. |
| PioRoundTrip.RoundTripIff | src/pio/pio_disasm.cpp:64-133 | For every side-set layout with count + opt <= 5, every word and every symbol table: assembling the printed text gives the word back if and only if no selector is reserved, unused bits are clear, a WAIT GPIO or PIN index is below 16, IRQ does not both clear and wait, and no side-set value stands under a clear enable bit. |
| PioRoundTrip.Reassembles | src/pio/pio_disasm.cpp:64-133 | The exact word, or error, that comes back for every word. |
| AsmEmitted.AssembledSurvives | src/pio/pio_assembler.cpp:375-413 | Every word the assembler emits survives printing and assembling again, exactly unless it is a WAIT GPIO or PIN with index 16 or more. |
| AsmEmitted.DecodeReturnsOperands | src/pio/pio_assembler.cpp:375-547 | Decoding an encoded instruction returns the operands, side-set and delay it was written with, mnemonic by mnemonic. |
| PioDisasmTokens.InstructionTokens | src/pio/pio_disasm.cpp:67-113 | The tokeniser reads each printed instruction as its mnemonic and operands, and stops at the ? of a reserved selector. |
| PioReadBack.CoreAssembles | src/pio/pio_assembler.cpp:415-547 | Those tokens encode to the canonical body of the word, whatever the symbols. |
| PioDisasm.Disassemble | src/pio/pio_disasm.cpp:64-133 | The appended string is the specified text. |
| AsmExpr.EvaluatorReadsTree | src/pio/pio_assembler.cpp:106-157 | Parsing the tokens of any expression tree uses up exactly those tokens and gives the tree's value with its precedence and left association, or the error of its leftmost bad leaf. |
| AsmExpr.TextReadsTree | src/pio/pio_assembler.cpp:57-157 | The same from text: written out, tokenised and evaluated. |
| AsmExpr.ExprEval.ParseSum | src/pio/pio_assembler.cpp:121-129 | The cursor loop for + and - returns what the specification reads from the remaining tokens and leaves the cursor behind them. |
| AsmExpr.ExprEval.ParseProduct | src/pio/pio_assembler.cpp:130-137 | The cursor loop for *. |
| AsmExpr.ExprEval.ParseUnary | src/pio/pio_assembler.cpp:138-143 | Prefix -, ~ and :: by recursion. |
| AsmExpr.ExprEval.ParseAtom | src/pio/pio_assembler.cpp:144-157 | Parentheses, numbers and symbols, with their errors. |
| AsmExpr.BitRev32 | src/pio/pio_assembler.cpp:171-175 | The 32-turn loop computes the same reversal as the mask network the state machine uses. |
| AsmText.Tokenise | src/pio/pio_assembler.cpp:57-95 | The scanning loop splits a line as specified or reports the first character that starts no token. |
| AsmTextLemmas.TokensSpace | src/pio/pio_assembler.cpp:57-95 | A space ends whatever token precedes it: the tokens of a + " " + b are those of a followed by those of b. |
| AsmTextLemmas.ParseDec | src/pio/pio_assembler.cpp:159-170 | The decimal numeral of every number that fits 64 bits parses to that number, larger ones are errors. |
| AsmPasses.PassesCountAlike | src/pio/pio_assembler.cpp:241-323 | Both passes of an accepted program count the same instructions. |
| AsmPasses.EmitPlaces | src/pio/pio_assembler.cpp:315-323 | The word of an instruction line stands at the number of instruction lines before it. |
| AsmDirectives.WrapMeans | src/pio/pio_assembler.cpp:298-304 | For every accepted program: `wrap` is one less than the number of instruction lines before the last `.wrap`, or than the number of instructions if there is none; `wrap_target` that number before the last `.wrap_target`, or 0. |
| AsmDirectives.LayoutMeans | src/pio/pio_assembler.cpp:287-297 | For every accepted program: the side-set count is the value of the last `.side_set`, 0 without one, modulo 2^32; the layout is optional exactly if some `.side_set` says opt. |
| AsmDirectives.AcceptedMeans | src/pio/pio_assembler.cpp:268-315 | In an accepted program every directive is one of fourteen, `.program` has a name and occurs at most once, and an instruction precedes every `.wrap`. |
| AsmDirectives.DefineMeans | src/pio/pio_assembler.cpp:275-283 | For every accepted program: a name stands for the value of its last `.define`, evaluated with the symbols known before that line. |
| AsmDirectives.LabelMeans | src/pio/pio_assembler.cpp:214-229 | A line that begins with a name and a colon, `public` before it or not, has that label and the rest as its content. |
| AsmMeaning.ExtractMeans | src/pio/pio_assembler.cpp:352-373 | Operands, `side` and an expression, a delay in brackets, either or both absent: each comes out as written, in either case of letters. |
| AsmDirectives.NoLabelMeans | src/pio/pio_assembler.cpp:214-229 | A line without a colon has no label, and loses only a leading `public`. |
| AsmMeaning.OperandMeans | src/pio/pio_assembler.cpp:416-421 | An operand is accepted if and only if it uses up its tokens and lies in range. |
| AsmNumerals.NumeralsMean | src/pio/pio_assembler.cpp:159-170 | Every decimal, hexadecimal and binary numeral, in either case of letters, is its positional value, or an error from 2^63 on. |
| AsmMeaning.ConditionsMean | src/pio/pio_assembler.cpp:424-436 | Each JMP condition code is taken exactly for its own tokens, and "always" exactly for none of them. |
| AsmMeaning.OutNames | src/pio/pio_assembler.cpp:460-472 | The code of an OUT destination is its place in the table of names, in both directions. |
| AsmMeaning.InNames | src/pio/pio_assembler.cpp:473-478 | The same for IN sources. |
| AsmMeaning.MovNames | src/pio/pio_assembler.cpp:498-515 | The same for MOV destinations and sources. |
| AsmMeaning.SetAndWaitNames | src/pio/pio_assembler.cpp:538-546 | The same for SET destinations and WAIT sources. |
| AsmMeaning.IndexMeans | src/pio/pio_assembler.cpp:442-458 | An index of WAIT or IRQ is the expression's value, with `rel` its low four bits plus 16; anything outside 0 to 31, and any other token, is an error. |
| AsmMeaning.FieldMeans | src/pio/pio_assembler.cpp:326-350 | Exactly which delays and side-set values a layout takes, and where in the five bits both lie. |
| AsmPasses.LabelCountsInstructions | src/pio/pio_assembler.cpp:241-266 | A label is the number of instructions before it; its symbol is too unless a later .define says otherwise. |
| AsmLabels.JumpFindsLabel | src/pio/pio_assembler.cpp:423-440 | In every accepted program `jmp label`, with any condition, delay and side-set, decodes to that number if and only if the last .define of the name from the label on, if any, gives it the same value. |
| AsmLabels.RedefinitionMisleads | src/pio/pio_assembler.cpp:275-283 | A concrete accepted program with a .define after its label jumps elsewhere. |
| AssemblerObject.Assembler.Run | src/pio/pio_assembler.cpp:187-203 | Both passes over the mutable tables end in the specified assembly or error. |
| AssemblerObject.Assembler.Pass1 | src/pio/pio_assembler.cpp:241-266 | First pass: labels, directives, counter and wrap defaults. |
| AssemblerObject.Assembler.Pass2 | src/pio/pio_assembler.cpp:315-323 | Second pass: the words of all instruction lines in order. |
| AssemblerObject.Assembler.HandleDirective | src/pio/pio_assembler.cpp:268-312 | Each directive changes its table or fails as specified. |
| AssemblerObject.Assembler.HandleSideSet | src/pio/pio_assembler.cpp:287-297 | The option loop, and the 5-bit check in wrapping 32-bit arithmetic. |
| AssemblerObject.Assembler.ExtractSideDelay | src/pio/pio_assembler.cpp:354-373 | The loop that takes side and delay out of the operand list, wherever they stand. |
| AssemblerObject.Assembler.EncodeLine | src/pio/pio_assembler.cpp:375-413 | One instruction line to its word or error. |
| AssemblerObject.Assembler.Split | src/pio/pio_assembler.cpp:214-229 | Label, optional PUBLIC, and the rest of a line. |
| DmaCopy.CopyMeaning | src/peripherals/dma.cpp:151-199 | After every error-free run, with wrapping rings, fixed addresses and overlaps: an element that no later one is written over lies at its generated address, byte-swapped if BSWAP, as its transfer read it; that is what memory held at the start unless an earlier element was written over its source; every written address has such a last writer; every other byte is unchanged. |
| DmaCopy.RepeatedCopies | src/peripherals/dma.cpp:151-199 | n transfers of the channel, one after another, leave the memory and the addresses that the copy meaning is about. |
| DmaCopy.SucceedsIff | src/peripherals/dma.cpp:151-199 | All transfers of an interleaving succeed if and only if each channel alone meets no bus error in its turns. |
| DmaTransfer.AddressesAreClosed | src/peripherals/dma.cpp:184-197 | The k-th address is start + k * size modulo 2^32, or (offset + k * size) mod 2^RING_SIZE inside the aligned ring, or constant. |
| DmaTransfer.RingFits | src/peripherals/dma.cpp:160-190 | A ring address never leaves its aligned window of 2^RING_SIZE bytes. |
| DmaCopy.InterleavingHarmless | src/peripherals/dma.cpp:238-266 | Channels with disjoint windows, transferred in any interleaving, each leave in their bytes and addresses what they would alone, and nothing else changes. |
| DmaCopy.OrderDoesNotMatter | src/peripherals/dma.cpp:238-266 | Two schedules with equal turns, one of them channel after channel, end in the same memory and channels. |
| DmaCopy.OneAsAlone | src/peripherals/dma.cpp:238-266 | In any interleaving a channel whose windows no other writes leaves in them what it would alone, even if others read what it writes. |
| DmaRuns.RunsAreInterleavings | src/peripherals/dma.cpp:220-266 | Every run of the controller, with pacing, bus errors and chaining, is the interleaving of its completed transfers. |
| DmaRuns.RunsCopyAsAlone | src/peripherals/dma.cpp:220-266 | Hence after any run in which no channel writes what another reads or writes, each channel ends with the bytes and addresses it would have reached alone, nothing else assumed. |
| DmaOutcome.RunCopies | src/peripherals/dma.cpp:220-266 | End to end, for any channel whose windows no other writes in the run: an element it has transferred and not written over lies at its closed-form address and is what memory held at its closed-form source when the run began, unless the channel had written over that source. |
| DmaOutcome.PacedCopies | src/peripherals/dma.cpp:254-263 | T clocks after its trigger that holds of exactly the first min(count, floor(T * num / den)) elements of a paced channel. |
| DmaOutcome.DreqCopies | src/peripherals/dma.cpp:245-252 | And of the first min(count, ready clocks) elements of a channel with a registered DREQ. |
| DmaOutcome.CounterCounts | src/peripherals/dma.cpp:220-266 | The fall of the transfer counter is the number of transfers the run has completed for the channel. |
| DmaOutcome.RestUnchanged | src/peripherals/dma.cpp:220-266 | Bytes that no completed transfer wrote are unchanged after every run. |
| DmaOutcome.UnharmedBefore | src/peripherals/dma.cpp:238-266 | That no other channel writes the windows can be checked before the run, for any bounds on how many elements each channel moves. |
| DmaRuns.TriggerIsWalk | src/peripherals/dma.cpp:201-236 | For every CHAIN_TO graph the mutual recursion of trigger and complete is a walk of at most 13 - depth completions and the depth counter returns to its entry value. |
| DmaRate.PacedRate | src/peripherals/dma.cpp:254-263 | A paced, error-free channel that none of the channels able to run chains to has, T clocks after its trigger and whatever the others do, moved floor(T * num / den) elements, or all. Able to run are the busy channels and the enabled ones these lead to. |
| DmaRate.AloneAfterReset | src/peripherals/dma.cpp:268-272 | A single channel, channel 0 included, is such a channel while the others are as reset leaves them, although their CHAIN_TO names channel 0. |
| DmaRate.PacedRemaining | src/peripherals/dma.cpp:254-263 | The remaining count is count - min(count, floor(T * num / den)). |
| DmaRate.DreqRate | src/peripherals/dma.cpp:245-252 | A channel with a registered DREQ has moved min(count, ready clocks) elements. |
| DmaMeaning.RunCopiesBytes | src/peripherals/dma.cpp:151-199 | Byte by byte, for any channel in any run that leaves it alone: byte j of an element it has moved, and did not write over, is the byte of memory at the start at source + j or, with BSWAP, at source + s - 1 - j, s being 1, 2 or 4 by DATA_SIZE. |
| DmaMeaning.PlacesAre | src/peripherals/dma.cpp:183-197 | Source and target of element k: fixed, start + k s modulo 2^32, or inside the aligned ring, which lies on the side RING_SEL names. |
| DmaMeaning.PacedClocks | src/peripherals/dma.cpp:78-89 | T clocks after its trigger a paced channel has moved T, T X / Y or T / divisor elements, rounded down and never more than its count, by TREQ_SEL; X and Y are the halves of the pacing timer, and with either 0 nothing moves. |
| DmaMeaning.RunTells | src/peripherals/dma.cpp:220-230 | After every run a started channel's interrupt is pending exactly if it was before or the channel has moved all its elements and is not quiet, whatever the other channels did. |
| DmaMeaning.CompleteTells | src/peripherals/dma.cpp:220-236 | One completion raises that interrupt exactly without bus error and without IRQ_QUIET, whatever chain of channels it starts. |
| DmaMeaning.CompleteStops | src/peripherals/dma.cpp:220-236 | A completed channel that its own chain does not start again is idle, both counters 0, its addresses as they were. |
| DmaMeaning.ErrorStops | src/peripherals/dma.cpp:151-184 | An element whose source cannot be read, or target not written, stops its channel with the flag that says which; no interrupt, no chaining, no other change. |
| DmaMeaning.BusyUntilDone | src/peripherals/dma.cpp:238-266 | A started channel is busy exactly until its last element. |
| DmaMeaning.TriggerArms | src/peripherals/dma.cpp:201-218 | What a trigger sets on a channel with something to move, and that a disabled or missing one is not started. |
| DmaChecksums.CrcIsSerial | src/peripherals/dma.cpp:114-140 | The reflected CRC modes are the serial one-bit register with the taps of their polynomial, over any message and from any start. |
| DmaChecksums.NormalIsSerial | src/peripherals/dma.cpp:106-132 | The normal modes are the same register read from its other end, over bytes with their bits turned round. |
| DmaChecksums.TapsAre | src/peripherals/dma.cpp:108-137 | The taps, exponent by exponent of the two polynomials. |
| DmaChecksums.Residue | src/peripherals/dma.cpp:114-140 | A message followed by its own checksum, lowest byte first, checks to 0. |
| DmaChecksums.TransfersCheck | src/peripherals/dma.cpp:91-142 | In every mode, with both byte swaps, on or off: the register after n transfers is the sum, exclusive or or CRC of the bytes read, turned round once for each swap; unwatched channels leave it. |
| DmaSniffer.CrcReflects | src/peripherals/dma.cpp:107-140 | For every seed and byte sequence the bit-reversed CRC-32 and CRC-16 modes on reversed bytes end in the normal modes' register read backwards. |
| DmaSniffer.CrcLinear | src/peripherals/dma.cpp:107-140 | Each CRC mode is linear over exclusive or of seeds and data. |
| DmaSniffRuns.WordsLikeBytes | src/peripherals/dma.cpp:91-142 | Without byte swap, a run of halfword or word transfers of the controller leaves the same CRC as the byte transfers that read the same buffer, straight or in a ring. |
| DmaSniffRuns.TransfersSniff | src/peripherals/dma.cpp:182-184 | The sniffer register after n transfers is the CRC of the bytes they read, in order. |
| DmaSniffer.PolynomialsReflect | src/peripherals/dma.cpp:108-137 | The two reflected polynomials are the normal ones bit-reversed. |
| DmaObject.DmaController.OnCycles | src/peripherals/dma.cpp:238-266 | The nested clock, channel and budget loops end in the specified state. |
| DmaObject.DmaController.MoveElement | src/peripherals/dma.cpp:151-199 | One element read, swapped, written, sniffed and addresses advanced, or a bus-error flag set. |
| DmaObject.DmaController.Trigger | src/peripherals/dma.cpp:201-218 | Arming, the null transfer and its guarded recursion, in place. |
| DmaObject.DmaController.Complete | src/peripherals/dma.cpp:220-236 | Completion, interrupt flag and chaining, in place. |
| DmaObject.DmaController.FeedSniffer | src/peripherals/dma.cpp:91-142 | The byte loop and the sum and exclusive-or modes update the checksum as specified. |
| DmaObject.DmaController.FoldByte | src/peripherals/dma.cpp:107-140 | The eight-turn bit loops of the four CRC modes. |
| DmaObject.DmaController.RateFor | src/peripherals/dma.cpp:78-89 | The pacing fraction of a TREQ selector; a stopped timer never paces. |
| UartMeaning.ClockBits | src/peripherals/uart.cpp:57-61 | In the register fields: m UARTCLK cycles from an empty accumulator bring t bits with t (64 IBRD + FBRD) <= 4 m < (t + 1) (64 IBRD + FBRD); and what a fraction of a bit left over adds. |
| UartMeaning.BaudRate | src/peripherals/uart.cpp:104-117 | The same from system clocks, through the clock ratio; nothing without UARTEN or divisor. |
| UartMeaning.ClocksMean | src/peripherals/uart.h:75-80 | The clock rates as set, a 0 standing for 1, with what has gathered kept. |
| UartMeaning.ByteTakesFrame | src/peripherals/uart.cpp:50-75 | A queued byte leaves the FIFO at the next bit tick and is sent 7 to 12 ticks later, the number given by word length, parity and stop bits, and not before. |
| UartMeaning.CharacterTakesFrame | src/peripherals/uart.cpp:77-96 | A character on the wire arrives after the same number of ticks, with exactly the flags of its error tag, or is lost to 32 waiting ones with OE. |
| UartMeaning.ReadWord | src/peripherals/uart.cpp:177-187 | The word read, field by field, and the error kept. |
| UartMeaning.ClearingMeans | src/peripherals/uart.cpp:208-222 | Which error flags stand after a write to the error register or to the clear register, flag by flag. |
| UartMeaning.WriteQueues | src/peripherals/uart.cpp:204-207 | A written byte takes the last place in the FIFO and is dropped exactly when 32 wait; the receiver does not notice. |
| UartLaws.RunConserves | src/peripherals/uart.cpp:63-117 | Every interleaving of register accesses, fed characters, output drains and cycles keeps: accepted = drained ++ log ++ in flight ++ FIFO; fed = arrived ++ in flight ++ wire; kept arrivals = read ++ FIFO; each frame took its length in bit ticks; a character is lost exactly at a full FIFO; OE stands exactly if one was lost since it was cleared. |
| UartLaws.RunsDeliverInOrder | src/peripherals/uart.cpp:63-117 | From reset: bytes sent are a prefix of bytes accepted, characters read a prefix of those kept, characters arrived a prefix of those fed. |
| UartLaws.TickConserves | src/peripherals/uart.cpp:63-102 | One bit tick keeps all of that. |
| UartLaws.CyclesTick | src/peripherals/uart.cpp:104-117 | A call brings exactly floor of floor bit ticks through the two nested accumulators, whatever they hold, and none without a divisor or a UART clock. |
| UartLaws.CyclesAdd | src/peripherals/uart.cpp:104-117 | on_cycles(a) then on_cycles(b) equals on_cycles(a + b), in the whole state. |
| UartObject.Uart.OnCycles | src/peripherals/uart.cpp:104-117 | The outer while loop over the clock accumulator. |
| UartObject.Uart.ClockOnce | src/peripherals/uart.cpp:108-116 | The inner while loop over the bit accumulator; no ticks without a divisor. |
| UartObject.Uart.TickTxBit | src/peripherals/uart.cpp:63-75 | Count down, finish into the log, or load the next byte. |
| UartObject.Uart.TickRxBit | src/peripherals/uart.cpp:77-96 | Count down, arrive or be lost, or take the next character from the wire. |
| UartObject.Uart.WriteData | src/peripherals/uart.cpp:204-207 | A byte is accepted exactly when the TX FIFO has room. |
| UartObject.Uart.ReadData | src/peripherals/uart.cpp:177-187 | The oldest character with its error bits and the overrun bit, latching its error; 0 when empty. |
| UartObject.Uart.ClearErrors | src/peripherals/uart.cpp:208-213 | Clears OE, the latched error and the four sticky flags. |
| UartObject.Uart.TakeOutput | src/peripherals/uart.cpp:44-48 | Drains the log. |
| RtcModel.TickAddsOneSecond | src/peripherals/rtc.cpp:38-52 | From any valid date a tick gives a valid date, adds one to its Gregorian epoch-second count (closed form with the 4/100/400 rule) and moves dotw with the day number. |
| RtcModel.TicksAddSeconds | src/peripherals/rtc.cpp:38-52 | The same for n seconds: dotw tracks elapsed days modulo 7. |
| RtcModel.EpochNamesDate | src/peripherals/rtc.cpp:23-27 | Two valid dates with the same count are the same moment. |
| RtcModel.NextYear | src/peripherals/rtc.cpp:23-27 | The closed day count grows by 365 or, in leap years, 366. |
| RtcModel.CyclesAreSeconds | src/peripherals/rtc.cpp:77-87 | A call advances the date by exactly the nested floor-division number of seconds, a counter above CLKDIV_M1 counting as one that stands at it. |
| RtcModel.CyclesAdd | src/peripherals/rtc.cpp:77-87 | Batching of cycles does not matter. |
| RtcObject.Rtc.TickDate | src/peripherals/rtc.cpp:38-52 | The carrying increments in place are the specified step. |
| RtcObject.Rtc.OnCycles | src/peripherals/rtc.cpp:77-87 | The loop over both dividers. |
| PwmModel.RetardInverts | src/peripherals/pwm.cpp:54-99 | For every counter <= TOP, with TOP >= 1 if phase-correct, retard and advance undo each other, up to the direction flag at 0 and TOP in phase-correct mode. |
| PwmModel.StaysInRange | src/peripherals/pwm.cpp:54-99 | The counter stays within TOP if and only if the slice is not phase-correct with TOP 0. |
| PwmModel.PeriodReturns | src/peripherals/pwm.cpp:74-99 | After TOP + 1, or 2 * TOP, clocks the phase is back with one wrap interrupt, except that a phase-correct slice starting at 0 upwards has none in its first period. |
| PwmModel.PulseWidths | src/peripherals/pwm.cpp:27-31 | From every phase the output is high min(CC, TOP + 1) clocks a period, or 0, 2 CC - 1 or 2 TOP in phase-correct mode, and an inverted output the rest. |
| PwmModel.TrailingEdgeRuns | src/peripherals/pwm.cpp:77-83 | Count and interrupts after n clocks in closed form. |
| PwmModel.PhaseCorrectRuns | src/peripherals/pwm.cpp:84-97 | Place on the up-and-down way and interrupts after n clocks in closed form. |
| PwmObject.Pwm.AdvanceSlice | src/peripherals/pwm.cpp:74-99 | One count of one slice in place, its interrupt flag, and no other slice. |
| PwmObject.Pwm.RetardSlice | src/peripherals/pwm.cpp:54-70 | One count back in place, no interrupt, no other slice. |
| PwmObject.Pwm.Outputs | src/peripherals/pwm.cpp:27-31 | The compare of both channels; B drives nothing outside free-running mode. |

## Left out

- Web frontend, lab server, command line, GDB, ELF and UF2 reading, simulator wiring and register windows: input and output, or bit-field storage.
- OUT EXEC, MOV EXEC and `exec_immediate`: the injected instruction recurses without a measure and an immediate instruction can disturb a pending stall; no machine of the theorems can come to execute either, and `StateMachine.Tick` asks for it.
- PIO pins: side-set effects, pin writes and a missing GPIO or IRQ wiring are not modelled, levels read are arbitrary inputs; programs that read pins, FIFO levels or, with autopull, the OSR are outside the latency theorem because their data depend on timing by design.
- Preemption: handlers, and the code between preemptions, are arbitrary state changes subject to the stated discipline (frames, stack pointers and r4-r11 kept); instruction fetch, decode and the other data instructions, `shift_c` included, are not modelled, decoded instructions are the input.
- PreemptionPriority.NestingBounded: asks that software leaves the priorities of active exceptions as they are.
- CpuCore.CpuDevice.Arithmetic: the register forms of ADD, ADC, SUB, SBC and CMP on low registers; the immediate and high-register forms feed the same adder and are not modelled.
- CPU waiting for events beyond the wake-up on entry, the system control space and cycle callbacks, and the second core.
- Memory: watchpoints, peripherals and the atomic register aliases are not on the modelled bus, so an address outside ROM, flash and SRAM is an invalid address.
- MemoryObject.Memory.ReadScalar: no watchpoints, peripherals or aliases, as above.
- MemoryObject.Memory.WriteScalar: no watchpoints, peripherals or aliases, as above.
- CpuCore.CpuDevice.Push: register lists hold r0-r7 and LR, the only ones a 16-bit PUSH encodes.
- CpuCore.CpuDevice.Pop: register lists hold r0-r7 and PC, the only ones a 16-bit POP encodes.
- PioStateMachine.StateMachine.Tick: asks for a program without OUT EXEC and MOV EXEC, as above.
- PioBlock.PioBlock.Tick: asks for programs without OUT EXEC and MOV EXEC, as above.
- PioBlock.PioBlock.Share: asks for programs without OUT EXEC and MOV EXEC, as above.
- PioStateMachine.StateMachine.DoExec: not OUT EXEC and MOV EXEC, as above.
- PioStateMachine.StateMachine.DoOut: not OUT EXEC, as above.
- PioIsa.Decode: its contract gives the ranges; that each operand comes back in its field is `AsmEmitted.DecodeReturnsOperands`. The undecoded word is not kept in the record.
- AssemblerObject.Assembler.Run: starts at lines and reports errors without the line number, see below.
- AssemblerObject.Assembler.Pass1: the public label table is left out, see below.
- AssemblerObject.Assembler.HandleDirective: program name, origin, public defines and pindirs are left out, see below.
- AssemblerObject.Assembler.Split: the PUBLIC marker is taken off and not returned, see below.
- Assembler input starts at lines: comment stripping and line splitting, line numbers in messages, the program name, origin, public label and define tables and the pindirs option are output or formatting only.
- AsmExpr.EvaluatorReadsTree: values are unbounded integers; where the source overflows 64 bits C++ leaves the result undefined.
- AsmEncode: a side-set count of -1 with `opt` passes the source's wrapping check; a `side` operand then shifts by more than the word is wide, which C++ leaves undefined and the model reports as out of range. A `wait` whose first expression uses up all tokens makes the source read past the operands; the model reports a missing operand.
- DMA register file, abort, multi-channel trigger and the two interrupt outputs: register windows; the per-channel interrupt flag is modelled. DMA writing its own registers is out of scope, its bus being plain memory. The answers of registered DREQ sources are inputs, one per channel and clock.
- DmaObject.DmaController.Complete: sets the channel's interrupt flag; the interrupt line is left out, as above.
- DmaRate.PacedRemaining: as `DmaRate.PacedRate`.
- DmaRate.DreqRate: as `DmaRate.PacedRate`.
- DmaOutcome.PacedCopies: as `DmaRate.PacedRate`; `RunCopies` has no such condition.
- DmaOutcome.DreqCopies: as `DmaOutcome.PacedCopies`.
- DmaRate.PacedRate: the channel meets no bus error, and no channel able to run starts it again; the 64-bit accumulators are unbounded.
- UartObject.Uart.TickTxBit: the transmit callback is left out, see below.
- UART interrupts, FIFO-level status bits, reset and the transmit callback: derived or wiring. Registers may change to any line setting at any time.
- RtcObject.Rtc.TickDate: the alarm check after the date step is left out, see below.
- RTC alarm and register packing: a comparison of fields and bit-field storage; years are unbounded where the register shows 12 bits.
- PwmObject.Pwm.AdvanceSlice: the pin update is left out; `PwmObject.Pwm.Outputs` has the compare.
- PwmObject.Pwm.RetardSlice: the pin update is left out, as for `AdvanceSlice`.
- PWM pacing by the divider, edge and level gating and pin routing: the fraction is added to the increment, so no rate law of the datasheet holds to be proved.
