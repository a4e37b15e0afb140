# A model of bvgz-vm

bvgz-vm is an assembler, a variable-length instruction format, and a virtual machine that runs many procedures
cooperatively. This project models the parts of it that decide whether a program does what it says: code generation,
decoding and execution; the scheduler with its timers, child processes and call stacks; the label hash table; and the
data segment and directory-listing buffers. Everything is Dafny 4.11; `dafny verify dfyconfig.toml` checks it.

## What is proved, in one place

* **Compiler correctness** (`Toolchain.AssembleAndRun`, resting on `Simulation.Simulates`). A program has a meaning of
  its own, in which control is an instruction index and a debug-only instruction that is not kept does nothing
  (`SourceMachine`). Assembling it, resolving its data segment and executing the bytes, for as many rounds as the
  outside world supplies input for, ends as that meaning does and in a corresponding state: same world, same
  procedures, each address and each saved return address the place of its index. The source meaning gives up (`Stray`)
  only when control is sent to a number that is no instruction's place. For programs whose jumps and calls name labels
  `Boundaries.RunStraysIff` says exactly when that is: when a timer, a file or socket event or an exit callback
  launches there, or a `connect` that connects at once; `Boundaries.LeavesSafetyByRegistration` says exactly which
  `timeout` and `onexit` calls register such an address.
* **Code generation and decoding.** One pass with delayed references equals a two-pass reference assembler
  (`Assembler.ParseToBytecode`); decoding at every instruction's place recovers it (`Decoder.RoundTrip`); the
  disassembler's sweep visits exactly the emitted instructions, or stops at the first bad reference
  (`Decoder.Disassemble`).
* **Execution in place.** `VmExec.Vm` is the machine as the C code keeps it: an array of memory bytes that handlers
  write byte by byte, an array of timers swept by swap-removal, and a doubly linked list of procedure records, each
  with its growing stack of frames (`Scheduler.Runnable`, over `ProcList` and `CallStack`). The whole main loop on
  those structures computes the byte machine's run (`VmExec.Vm.ExecuteVm`), so every theorem about runs holds of it.
* **What instructions mean.** Each arithmetic, relational, logical and bitwise instruction stores the result its name
  says, of its operands in their order, said of numbers and bits (`DataLaws.ThreeOperands`, `DataLaws.TwoOperands`);
  loads, stores, copies, `assert` and `abrt` likewise; a round with a jump sends the head where the operands say
  (`RoundLaws.JumpRound`, `RoundLaws.LabelBranchRound`); operands in the code are what the source says, and data slots
  agree with them about labels (`OperandLaws`).
* **Scheduling, calls, halting.** First in, first out (`Bracketing.TurnComes`); call and return match under any
  interleaving (`Bracketing.CallReturns`); a callback procedure ends exactly when it should
  (`Bracketing.CallbackEnds`); why the loop ends (`Halting.WhyItStops`), and that it ends by itself exactly when no
  timer, event or exit callback is left to wait for (`RoundLaws.RunEndsWhenNothingWaits`); the child counters are
  right in every reachable state (`Halting.CountedRun`).
* **Events.** What a round starts is in the procedure list afterwards, in order (`RoundStarts.RoundStarts`). What
  firing timers, file and socket events and child reports does, and exactly when it is defined
  (`EventLaunch.EventsFire`); when a `timeout` fires, from the call on (`TimerLaws.TimeoutFires`); over whole runs,
  each exit callback registered for a child is launched once or still waits (`ChildLedger.CallbacksLaunchedOnce`).
* **Data structures.** The procedure list with its pointers (`ProcList`), call-stack storage, its amortised cost and
  what its shrinking loses (`CallStack`), the hash table with its mutually recursive put and rehash and exactly when a
  key finds no room (`HashMap`), label closure through that table (`Parser`), the data segment and when its growth
  loop ends (`DataSegment`), and directory packing (`ReadDir`).

## How the source is read

* Undefined C behaviour is an outcome of its own: a read or write outside VM memory, an overlapping `memcpy`, a shift
  by 64 or more, a call through the table's terminator and a null list head become `Undefined`, `WentWild` or
  `Crashed`; a decoder read past the code is `WildRead`; a store outside the data segment or a directory buffer is
  `Wild`. References are checked for four bytes but accessed as eight, and the check adds in 32 bits: both are
  modelled as they are. The one exception is the call stack, see the findings below.
* `Fits` asks for at most 0xFFFFFF00 bytes of code, so that no offset is mistaken for -1 and no 32-bit offset wraps.
  `KnownLabel` asks for every code label to have an instruction after it; the generator indexes past its array
  otherwise.
* The image stores the entry label's instruction index as the start address (src/parser.c:195).
  `Boundaries.EntryStarts` and `Boundaries.EntryAtZero` say exactly when that is the instruction's address;
  `AssembleAndRun` claims the source's meaning only then.
* A code label after which nothing is emitted keeps the offset -1. `Boundaries.LabelJumpFaults` says a jump to it
  faults and no other does; the simulation covers such programs too.
* `execute_vm` is followed for any finite sequence of rounds. What a round reads from outside (the clock, what
  `waitpid` answers, file and socket events, what becomes of a `connect`, the result of a system call that is not
  modelled) is an arbitrary `Input`.
* `fire_vm_events` adds three calls whose order C does not fix; the model takes the order written.
* Where the documentation and the code differ, the code is followed: `assert` fails when its condition is true and
  does nothing when it is 0; `call` takes address, arguments, result; `write` takes destination, offset, value; `not`
  with one operand stores its operand back unchanged (`DataLaws.NotInPlaceDoesNothing`).
* `compute_layout` sets bits that were clear, so the model adds. The timer loop's index steps back through unsigned
  wrap-around and forward again; the model leaves it where it is.

## Findings about the code, each with its exact condition

* The call stack shrinks by a byte count that forgets the frame size (src/vm.c:132): every pop that shrinks it leaves
  live frames outside the block (`CallStack.ShrinkLosesFrames`). The frames of a procedure stay inside exactly when no
  return comes back by 96 frames or more from the capacity its deepest call took (`CallStack.FramesInsideIffClose`);
  never more than 64 calls open is enough (`CallStack.ShallowStaysClose`), 65 calls and 33 returns lose frames
  (`CallStack.DeepThenShallowLoses`). The rest of the model lets the storage keep the frames its capacity counts.
* The data segment's growth loop adds blocks in 32 bits. It ends exactly when the request is at most the last size
  before wrap-around (`DataSegment.LoopEndsIff`), for both block sizes (`DataSegment.SourceBlocks`); a directive with
  offset 0 and no size asks for 2^32 - 1 bytes and never ends (`DataSegment.OffsetWithoutSize`).
  `DataSegment.Segment.AddBytes` says from size, offset and length which directives complete.
* `onexit` accepts an argument block whose end wraps around 32 bits; firing the callback is defined exactly when no
  block that passes the check does that (`EventLaunch.ProcsFire`); `EventLaunch.WrappedBlockPasses` is such a block.
* `connect` never checks its callback's address. If the connection is there at once the callback starts inside the
  call (`SyscallLaws.ConnectStarts`), so a program of one instruction, with no timer, event or child, puts a procedure
  inside that instruction (`OffBoundary.ConnectLeavesBoundaries`).
* A timer's nanoseconds are not carried into seconds: where they add up to a second or more, and exactly there, it
  fires early, from the next full second on (`TimerLaws.MillisecondsLater`).
* `timeout` accepts the address `codesz`, which no launch admits (`Halting.TimeoutAccepts`), and an idle machine whose
  events all ask for procedures outside the code dereferences the head of an empty list (`Halting.WakesToNothing`).
* `abrt` with 32 zero bits is the only stop with no flag set (`Halting.WhyItStops`).
* A new key's chain in the label table is full, at any size without wrap-around, exactly when the stored keys' hash
  values crowd it out, and then doubling never makes room (`HashMap.NoRoomIffCrowded`); at most eight keys share a
  hash value (`HashMap.AtMostEightShare`).
* The decoder's bounds check of an operand forgets how far into the instruction it stands, so operands are read past the
  code (`Decoder.CheckForgetsOffset`, `Decoder.ReadsPastCode`); and the first opcode beyond the table is not refused
  (`RoundLaws.UnknownOpcode`).
* A lookup that misses in the last name's entries compares with the terminator's null name (`Parser.FindDef`).
* `readdir` truncates the buffer length to 32 bits when it checks the buffer, so the stores can leave memory, and it
  reports four bytes more than saving every entry takes (`ReadDir.AllSavedIff`), because of the null pointer after the
  entries. The buffer is packed exactly when that has room; otherwise it falls on the last name saved, and past the
  buffer's end if that is nearer (`ReadDir.Pack`, `ReadDir.NullInName`), as for a file called "a" and six bytes
  (`ReadDir.NameLost`).

## Model

| member | source | states |
|---|---|---|
| Toolchain.AssembleAndRun | src/basm_app.c:37-67 | from the parsed program and its data segment: the image is built exactly when every data label resolves and the entry label names code; executing it gives, round for round and through the last cleanup, the state the source meaning gives from that entry and the resolved data |
| Toolchain.Build | src/parser.c:132-196 | succeeds exactly when every data label resolves and the entry label names code; then it yields the image, the resolved data and the entry label's instruction index |
| Toolchain.Starts | src/vm.c:29-44 | a machine started at an entry index that is also its instruction's address corresponds to the source at that instruction |
| Simulation.Simulates | src/vm_exec.c:17-59 | for every program, every pair of corresponding states and all outside input, the bytes' run ends as the source's run and in a corresponding state |
| Simulation.RelStep | src/vm_exec.c:21-59 | the same for one round, idle rounds and events included |
| Simulation.RelRunHead | src/vm_exec.c:36-50 | running the head corresponds, whether it is past the code, faults in decoding, or executes |
| Simulation.RelExecute | src/vm_exec.c:47-58 | executing one instruction and the periodic cleanup corresponds |
| Simulation.RelTarget | src/instns/instn_impl_ctrl.c:6-57 | a jump or call of the bytes goes to the place of the index the source goes to |
| Simulation.TransferTarget | src/instns/instn_impl_ctrl.c:20-57 | control leaves for another instruction only by a jump or call, to the low 32 bits of its first operand |
| Simulation.RelNext | src/bytecode_gen.c:65-79 | the address a procedure holds is that of the next kept instruction, or past the code when there is none |
| Boundaries.StraysOnlyByLaunch | src/vm_exec.c:21-59 | in a program whose jumps and calls name labels, a round strays exactly when a due timer, a file or socket event, a reported child's callback or a `connect` that connects at once launches at an address that is no instruction's place |
| Boundaries.RunStraysIff | src/vm_exec.c:21-59 | a run strays exactly when one of its rounds launches there |
| Boundaries.LeavesSafetyByRegistration | src/instns/instn_impl_sys.c:7-24 | a round comes to hold such an address exactly when its head makes a `timeout` or `onexit` call every check of which passes and whose argument block names it |
| Boundaries.CalledWellLaunchesWell | src/vm_exec.c:21-59 | a run that hands `timeout`, `onexit` and immediate `connect` only instructions' places, and whose file and socket events name only such, launches only there |
| Boundaries.ControlStaysOnBoundaries | src/vm_exec.c:86-110 | in every reachable state of a run that launches nothing astray, each next address and each saved return address but the sentinel is an emitted instruction's place or past the code |
| OffBoundary.ConnectLeavesBoundaries | src/syscalls/syscall_net.c:188-209 | a program of one `syscall`, with no timer, event or child, starts a procedure at address 1, where no instruction is |
| Boundaries.EntryStarts | src/parser.c:177-196 | the stored start address corresponds to the entry instruction exactly when its place equals its index |
| Boundaries.EntryAtZero | src/parser.c:195 | with nothing skipped before it, that is exactly the first instruction |
| Boundaries.LabelJumpFaults | src/instns/instn_impl_ctrl.c:6-23 | a jump to a label goes to the next emitted instruction, and faults exactly when there is none |
| SyscallLaws.TimeoutRegisters | src/syscalls/syscall_misc.c:63-98 | `timeout` stores 0 and registers the timer its argument block describes exactly when every check passes, otherwise 1 and nothing |
| SyscallLaws.OnExitRegisters | src/syscalls/syscall_proc.c:327-371 | `onexit` stores 0 and adds the callback its argument block describes to the child it names exactly when every check passes, otherwise 1 and nothing |
| SyscallLaws.ConnectStarts | src/syscalls/syscall_net.c:151-230 | `connect` asks for one procedure, at the unchecked address its argument block names, exactly when every check passes and it connects at once; what it stores and answers, and when it flags |
| SyscallLaws.DataKeepsRegistrations | src/vm_exec.c:113-121 | no instruction but a system call touches timers or the child table, or creates procedures |
| EventLaunch.TimersFireOnce | src/timers.c:8-42 | timers fired and left are those there were; exactly the due ones fired, each starting one empty-stack procedure at its callback exactly when all those callbacks are code |
| EventLaunch.CallbacksFire | src/syscalls/syscall_proc.c:387-413 | firing a child's callbacks is defined exactly when every argument block that passes the check lies in memory; then one procedure is asked for by each that passes, in order |
| EventLaunch.ProcsFire | src/syscalls/syscall_proc.c:416-453 | the same for any list of `waitpid` answers, with the children that terminated released |
| EventLaunch.EventsFire | src/vm_exec.c:124-129 | all events together: when defined, how many are counted, and that exactly the requests inside the code start |
| EventLaunch.NoEventsNoProcs | src/vm_exec.c:72-80 | when no event is counted no procedure was created, so sleeping is safe |
| EventLaunch.WrappedBlockPasses | src/syscalls/syscall_proc.c:338-343 | with 200 bytes of memory, a block at 0xFFFFFFF0 passes the check and firing its callback is not defined |
| RoundStarts.RoundStarts | src/vm_exec.c:21-59 | after a round the procedures it started are in the list in order, with those that were there, one fewer at most; those for children are among them in order |
| EventLaunch.ReportsKeepOrFire | src/syscalls/syscall_proc.c:416-453 | a registered callback is still registered after the reports, or was among those fired |
| Program.NextKept | src/bytecode_gen.c:45-53 | the first emitted instruction at or after an index, with none emitted in between |
| Program.LayoutMonotone | src/bytecode_gen.c:65-86 | places grow with the index, strictly over an emitted instruction |
| Program.LayoutOfSkipped | src/bytecode_gen.c:66-79 | a skipped instruction has the place of the next emitted one |
| Program.LayoutInjective | src/bytecode_gen.c:65-86 | two emitted instructions never share a place |
| Program.LayoutGap | src/bytecode_gen.c:65-86 | two indices share a place exactly when nothing between them is emitted |
| Encoding.CodeAt | src/bytecode_gen.c:81-86 | every emitted instruction's bytes stand at its place in the finished code |
| Decoder.WidthOfLog | src/bytecode_gen.c:123-132 | the decoder's power of two undoes the encoder's logarithm on every operand width |
| Assembler.ParseToBytecode | src/bytecode_gen.c:35-99 | one pass with delayed references produces the two-pass reference code, its size, and every instruction's final offset |
| Assembler.EmitNext | src/bytecode_gen.c:55-86 | one instruction extends code, references and offsets as the reference does, inside the grown buffer |
| Assembler.EnsureBlocks | src/bytecode_gen.c:59-63 | the buffer grows in whole blocks to what is needed and keeps what was written |
| Assembler.RecordOffset | src/bytecode_gen.c:65-79 | the repair loop gives the skipped instructions just before this one its offset and touches no other |
| Assembler.ComputeLayout | src/bytecode_gen.c:102-120 | the opcode word, packed sizes and announced size are those of the reference encoding |
| Assembler.WriteHeader | src/bytecode_gen.c:81-83 | the opcode word and, with an immediate, the size byte are appended |
| Assembler.WriteArgs | src/bytecode_gen.c:135-183 | the operands' bytes follow, label operands of later instructions as delayed references |
| Assembler.WriteArg | src/bytecode_gen.c:141-178 | one operand: written now if its value is known, otherwise four bytes are reserved and recorded |
| Assembler.WriteWord | src/bytecode_gen.c:186-224 | an n-byte store replaces exactly those bytes, least significant first |
| Assembler.PatchAll | src/bytecode_gen.c:89-93 | filling in the delayed references turns the buffer into the reference code |
| Assembler.PatchedElsewhere | src/bytecode_gen.c:89-93 | filling in references leaves every byte outside them unchanged |
| Assembler.StandsReserve | src/bytecode_gen.c:171-177 | whatever the four reserved bytes hold, they end up as the label's final offset |
| Decoder.DecodeInstn | src/bytecode.c:10-91 | the argument loop yields the operands, length or fault the decoding function gives |
| Decoder.Decode | src/bytecode.c:10-91 | a decoded table instruction has its arity's operands and ends inside the code |
| Decoder.CheckForgetsOffset | src/bytecode.c:40-88 | an operand's bounds check measures from the instruction's start: when it faults, and exactly when the read goes past the code |
| Decoder.ReadsPastCode | src/bytecode.c:40-88 | nine bytes of code for an instruction of eleven are read past their end |
| Decoder.RoundTrip | src/bytecode.c:10-91 | decoding the finished code at an emitted instruction's place recovers opcode, operands and size, or the memory fault its references deserve |
| Decoder.DecodeEncoding | src/bytecode.c:20-90 | the same wherever an encoding stands in any code |
| Decoder.DecodeArgRoundTrip | src/bytecode.c:40-88 | one operand survives width choice, size packing, storing and zero-extension |
| Decoder.Disassemble | src/debug/debug_misc.c:89-114 | the sweep lists the emitted places in order, and fails exactly at the first instruction with a bad reference |
| OperandLaws.OperandsMeanTheirSource | src/bytecode_gen.c:141-178 | decoding the finished code at an emitted instruction gives each number as written, each reference's low 32 bits, for a data label the offset recorded for it, and for a code label the place of the next emitted instruction, all ones if there is none |
| OperandLaws.SlotsAgreeWithOperands | src/parser.c:132-174 | a data slot and an operand that name the same label hold the same number after resolution |
| OperandLaws.OnlyAssertIsSkipped | src/bytecode_gen.c:45-53 | bytes are emitted for every instruction but `assert`, and for that one when debugging |
| OperandLaws.InstnFormat | src/bytecode_gen.c:102-132 | every emitted instruction starts, low byte first, with its opcode above three bits for its immediates, then a byte with two bits for each immediate's width |
| Bytes.LoadAfterStore | src/bytecode_gen.c:195-224 | reading back a stored word gives it modulo its width |
| Bytes.StoreAfterLoad | src/instns/instn_impl.h:5-9 | storing the value of bytes reproduces the bytes |
| Bytes.ByteOfWord | src/bytecode_gen.c:186-224 | byte k of a stored word is its k-th digit in base 256 |
| Isa.RaiseNonzero | src/bytecode.c:16 | or-ing exception bits leaves the word nonzero exactly when something was or becomes set |
| DataLaws.RaiseCombines | src/vm.h:10-17 | or-ing flags combines each pair of bits alone |
| DataLaws.FaultBits | src/vm.h:10-17 | each fault sets its one flag, the numbered bit, and no other |
| DataLaws.ThreeOperands | src/instns/instn_impl_arith.c:6-104 | for every three-operand operation: stored at the destination is x op y, x and y being the second's and third's values, and nothing else changes; exactly a zero divisor faults with the arithmetic flag; undefined exactly for a shift by 64 or more or a destination outside memory |
| DataLaws.TwoOperands | src/instns/instn_impl_arith.c:15-19 | the same with the destination's value as x |
| DataLaws.ShortCircuits | src/instns/instn_impl_logc.c:6-36 | logical and with 0, and logical or with anything else, do not read their second operand |
| DataLaws.DivisorFirst | src/instns/instn_impl_arith.c:51-62 | a zero divisor faults whether or not the dividend can be read |
| DataLaws.OneOperand | src/instns/instn_impl_logc.c:38-56 | complement, logical not and truth value are stored at the destination, nothing else changes |
| DataLaws.InPlace | src/instns/instn_impl_logc.c:45-63 | the same in place, but for `not`, which stores the operand back |
| DataLaws.AssertStops | src/instns/instn_impl_misc.c:14-23 | `assert` stops exactly on a condition that is not 0, with its number and flag |
| DataLaws.AbortFlags | src/instns/instn_impl_misc.c:26-30 | `abrt` stops and sets exactly the flags its operand has in its low 32 bits |
| DataLaws.ArgvStores | src/instns/instn_impl_ctrl.c:81-94 | `argv` stores the innermost argument pointer, or 0 outside any call, and nothing else |
| DataLaws.RetvStores | src/instns/instn_impl_ctrl.c:97-121 | `retv` stores through the innermost result pointer and nothing else; it faults with the memory flag exactly outside any call or where the pointer fails the check |
| DataLaws.BitsCombine | src/instns/instn_impl_bitw.c:6-48 | and, or, xor combine each pair of bits alone |
| DataLaws.ShiftsMoveBits | src/instns/instn_impl_bitw.c:65-92 | shifts by less than 64 move every bit by that many places, zeros coming in |
| DataLaws.QuotientAndRemainder | src/instns/instn_impl_arith.c:51-104 | div and mod fault exactly on zero and otherwise are quotient and remainder of one division |
| DataLaws.WriteStores | src/instns/instn_impl_misc.c:100-157 | a write stores the value's low bytes at destination plus offset and changes nothing else |
| DataLaws.WriteThenRead | src/instns/instn_impl_misc.c:40-157 | a read through the same pointer and offset gets the written value back |
| DataLaws.ReadLoads | src/instns/instn_impl_misc.c:40-97 | a read stores the word that stands at pointer plus offset, in 32 bits, and nothing else; it faults with the memory flag exactly where the check fails |
| DataLaws.WritesThrough | src/instns/instn_impl_misc.c:100-157 | a write stores its operand's low bytes there under the same check |
| DataLaws.ReferencePasses | src/bytecode.c:94-102 | the reference check in plain numbers, wrap-around included |
| DataLaws.CopyMoves | src/instns/instn_impl_misc.c:33-37 | a copy that is defined leaves the source's bytes at the destination and changes nothing else, the source included |
| DataLaws.CopyDefined | src/instns/instn_impl_misc.c:33-37 | a copy is defined exactly between ranges inside memory that do not overlap |
| DataLaws.NotInPlaceDoesNothing | src/instns/instn_impl_bitw.c:51-62 | `not` with one operand changes nothing, hence never complements |
| VmExec.MakeVm | src/vm.c:29-44 | a new machine has one procedure at the entry, or a flag and none if the entry is outside the code |
| VmExec.Vm.ExecuteVm | src/vm_exec.c:17-62 | the main loop on the list, the stacks and the arrays computes the byte machine's run, then the last cleanup |
| VmExec.Vm.Round | src/vm_exec.c:23-59 | one round is the byte machine's step |
| VmExec.Vm.RunProcedure | src/vm_exec.c:36-58 | deleting a procedure past the code, or decoding, advancing, executing and counting, takes the object where the byte machine goes |
| VmExec.Vm.ExecInstn | src/vm_exec.c:113-121 | each handler changes world and procedures as its instruction's effect says |
| VmExec.Vm.FireVmEvents | src/vm_exec.c:124-129 | timers, then files and sockets, then child processes |
| VmExec.Vm.CleanupVm | src/vm.c:197-201 | child events fire and the count starts again |
| VmExec.Vm.MakeProcedure | src/vm.c:62-89 | a procedure is appended, or refused with a flag when outside the code |
| VmExec.Vm.MakeFuncProcedure | src/vm.c:92-101 | the new procedure has one bottom frame that returns to -1 |
| VmExec.Vm.FireTimerEvents | src/timers.c:8-42 | the swap-removal loop on the array leaves and launches what the sweep function says |
| VmExec.Vm.SweepTimers | src/timers.c:18-39 | the loop itself, which terminates |
| VmExec.Vm.FireProcEvents | src/syscalls/syscall_proc.c:416-453 | children are reaped until none is left to report |
| VmExec.Vm.FireEventsOfProc | src/syscalls/syscall_proc.c:387-413 | a child's callbacks fire in order, bad argument blocks passed over |
| VmExec.Vm.SaveChildProc | src/syscalls/syscall_proc.c:74-101 | a started child takes the first free slot, growing the table when it is full |
| VmExec.Vm.FindChild | src/syscalls/syscall_proc.c:312-324 | the first used slot with the pid |
| VmExec.Vm.PutStatus | src/syscalls/syscall_proc.c:401-407 | the seven status words, stored one after the other, are the status block at the callback's arguments |
| VmExec.Vm.CopyBytes | src/instns/instn_impl_misc.c:33-37 | copying byte by byte between ranges that do not overlap is one copy of the source as it was |
| VmExec.Vm.OpRet | src/instns/instn_impl_ctrl.c:60-78 | a frame is popped and control resumes there, or the procedure ends |
| VmExec.Vm.OpSyscall | src/instns/instn_impl_sys.c:7-24 | events and a cleanup come first, then the call or the bad-number fault |
| Timers.SweepPartitions | src/timers.c:18-33 | what is left and what fired are together the timers there were; exactly the due ones fired |
| Timers.AllFireBackwards | src/timers.c:18-33 | when the time of all has come, the first fires first and then the others from the last back |
| TimerLaws.FiresWhatHasCome | src/timers.c:8-42 | firing takes away every timer whose time the clock has reached and no other, counts each, and starts exactly their callbacks that are code |
| TimerLaws.TimeoutFires | src/syscalls/syscall_misc.c:63-98 | a `timeout` of m milliseconds at t adds a timer that a firing takes away, starting its callback, exactly when the clock has reached t plus m/1000 seconds and 10^6 (m%1000) nanoseconds compared as they stand |
| TimerLaws.MillisecondsLater | src/timers.h:21-27 | without a carry that is exactly m milliseconds later; with one it is early, by exactly what the nanoseconds exceed a second |
| Bracketing.RoundMoves | src/vm_exec.c:36-59 | procedures that do not run are untouched and move as the turn says; the head changes as its instruction says |
| Bracketing.TurnComes | src/syscalls/syscall_misc.c:101-114 | the procedure at position k, untouched while it waits, is the head after exactly k yields or ends of heads |
| Bracketing.FramesKept | src/vm.c:104-136 | while a call is served its frame and those below never change |
| Bracketing.CallReturns | src/instns/instn_impl_ctrl.c:46-78 | whatever else runs, a call ends only by its own procedure's `ret`, which resumes right after it with the caller's stack |
| Bracketing.SentinelsStay | src/vm.c:92-101 | only a bottom frame ever returns to -1 |
| Bracketing.CallbackEnds | src/instns/instn_impl_ctrl.c:60-78 | a callback procedure ends exactly when it runs past the code or its bottom frame returns |
| Bracketing.ArgvStoresPointer | src/instns/instn_impl_ctrl.c:81-94 | reading back what `argv` stored gives the innermost argument pointer |
| Bracketing.RetvStoresResult | src/instns/instn_impl_ctrl.c:97-121 | reading back at the innermost result pointer gives the operand, and nothing else changed |
| Bracketing.CalleeSeesPointers | src/instns/instn_impl_ctrl.c:46-121 | in the callee `argv` gives the call's second operand and `retv` stores where its third says |
| Halting.WhyItStops | src/vm_exec.c:21-50 | a round ends the run only with nothing to run and nothing pending, with a flag set, or by `abrt` with zero flags |
| RoundLaws.EndsWhenNothingWaits | src/vm_exec.c:132-137 | with no procedure left, a round ends the run unchanged exactly when there is no timer, no file or socket event, and no live child with an exit callback; otherwise it sleeps when nothing is asked for |
| RoundLaws.RunEndsWhenNothingWaits | src/vm_exec.c:21-34 | the same in every state that a run from right counters reaches |
| RoundLaws.JumpRound | src/instns/instn_impl_ctrl.c:6-43 | a round with `jmp`, `jtrue` or `jfalse` leaves the head at the first operand's low 32 bits exactly when the jump is taken, else at the next instruction; it stops with the pointer flag exactly when a taken target is at or past the code |
| RoundLaws.LabelBranchRound | src/instns/instn_impl_ctrl.c:26-43 | in assembled code a taken jump to a label leaves the head at the next emitted instruction's place, and faults exactly when there is none |
| RoundLaws.TickCounts | src/vm_exec.c:52-58 | exactly every twentieth instruction brings a cleanup, which counts from zero again |
| RoundLaws.SyscallReads | src/instns/instn_impl_sys.c:7-24 | after the events the operands give number, arguments and result pointer in that order and width; numbers from 30 on stop with their flag |
| RoundLaws.UnknownOpcode | src/bytecode.c:20-38 | an opcode beyond the table stops the machine with its flag, but the first one beyond is called through the empty last entry |
| RoundLaws.CutHeader | src/bytecode.c:14-18 | code that ends within an opcode word stops the machine with the pointer flag |
| Halting.HaltsFlagged | src/instns/instn_impl_misc.c:14-30 | every handler that gives up leaves a flag set, but for `abrt` told to set none |
| Halting.FaultBitsNonzero | src/bytecode.c:14-49 | every decoding failure the decoder reports raises a flag |
| Halting.WakesToNothing | src/vm_exec.c:23-40 | with no procedure left, pending events wake the machine to an empty list, and it crashes, exactly when firing them is defined and they ask for some procedure, and all of them at addresses outside the code |
| Halting.TimeoutAccepts | src/syscalls/syscall_misc.c:77-95 | a timer is registered exactly when its address is at most `codesz`, `codesz` included |
| Halting.CountedDispatch | src/syscalls/syscall_proc.c:74-101 | with right counters no call reaches the abort after the slot search, and they stay right |
| Halting.CountedRun | src/syscalls/syscall_proc.c:456-459 | over any run the counters count, and callbacks are pending exactly when a live child has one |
| Children.SaveChildCounts | src/syscalls/syscall_proc.c:74-101 | the slot search always succeeds; counters and pid uniqueness are kept |
| Children.AddCallbackCounts | src/syscalls/syscall_proc.c:361-368 | registering keeps counters and pids right |
| Children.ReleaseCounts | src/syscalls/syscall_proc.c:438-449 | releasing a terminated child keeps counters and pids right |
| Children.PendingMeansLiveCallback | src/syscalls/syscall_proc.c:456-459 | the callback sum is positive exactly when a used slot has a callback |
| ChildLaws.StartTakesSlot | src/syscalls/syscall_proc.c:74-101 | a started child takes a free slot, of eight new ones when all are taken, with its pid and no callbacks; other children are as before |
| ChildLaws.TableUpdates | src/syscalls/syscall_proc.c:361-368 | a registered callback stands after the child's others; a released slot is free; other children are as before |
| ChildLaws.ReportReleases | src/syscalls/syscall_proc.c:438-449 | a reported child gives up its slot exactly when it exited or was signalled |
| ChildLaws.NothingReported | src/syscalls/syscall_proc.c:424-430 | with nothing to report the table stays, and a failure leaves its error number |
| ChildLaws.CallbackReads | src/syscalls/syscall_proc.c:401-410 | the block holds pid, exited, status, signalled, signal, stopped and continued in that order, nothing else changes, and the callback starts if it is code |
| ChildLaws.BadBlockPassedOver | src/syscalls/syscall_proc.c:394-399 | a block that fails the check is passed over with the memory flag |
| ChildLaws.CallbackArgument | src/vm.c:92-101 | in the procedure started for it `argv` stores the block's address |
| ChildLedger.CallbacksConserved | src/syscalls/syscall_proc.c:74-101 | over any history of starts, registrations and reports the counters count, and callbacks registered are those released and those waiting; with only terminated children reported, those released are those that fired |
| ChildLedger.RunFollowsLedger | src/vm_exec.c:17-62 | over any run the child table is the one its starts, registrations and reports lead to, registered addresses stay inside the code, and the procedures started for children are exactly those launched for the callbacks that fired, in order |
| ChildLedger.CallbacksLaunchedOnce | src/syscalls/syscall_proc.c:387-453 | over any run whose children have fresh pids and are reported when terminated, callbacks waiting at the start or registered since are those fired and those still waiting; one procedure was started for each fired with a good block, in order |
| ProcList.ListUnlink | src/util/list.c:35-38 | the neighbours are joined and the rest stays linked |
| ProcList.ListAppend | src/util/list.c:41-49 | the node stands right after the given one |
| ProcList.ListPrepend | src/util/list.c:52-60 | the node stands right before the given one |
| ProcList.ListTail | src/util/list.c:81-85 | following next pointers ends at the last node |
| ProcList.Procedures.MakeProcedure | src/vm.c:76-86 | the list becomes the old sequence with the procedure appended |
| ProcList.Procedures.DeleteCurrent | src/vm.c:139-149 | the list becomes the old sequence without its head |
| ProcList.Procedures.Yield | src/syscalls/syscall_misc.c:101-114 | the list becomes the old sequence rotated by one |
| Scheduler.Runnable.MakeProcedure | src/vm.c:62-89 | a record with an empty stack goes to the end of the linked list |
| Scheduler.Runnable.MakeFuncProcedure | src/vm.c:92-101 | a record with one bottom frame goes to the end of the linked list |
| Scheduler.Runnable.DeleteCurrent | src/vm.c:139-149 | the first record leaves the list; the others are as before |
| Scheduler.Runnable.Yield | src/syscalls/syscall_misc.c:101-114 | the first record goes to the end, in place; alone it stays |
| Scheduler.Runnable.SetIptr | src/instns/instn_impl_ctrl.c:6-17 | the first procedure's address changes, nothing else does, whatever records share the heap |
| Scheduler.Runnable.PushOn | src/vm.c:104-118 | a frame is pushed on one procedure's stack, reallocation included, and every other procedure is unchanged |
| Scheduler.Runnable.PopFrame | src/vm.c:121-136 | the innermost frame of the first procedure leaves, and every other procedure is unchanged |
| CallStack.Stack.Push | src/vm.c:104-118 | the frames become the old ones with one more, the storage resized as specified |
| CallStack.Stack.Pop | src/vm.c:121-136 | the top frame leaves and its address is returned, the storage resized as specified and keeping the frames its capacity counts |
| CallStack.ResizedWell | src/vm.c:107-133 | capacity stays whole steps with 0 to 95 frames of slack |
| CallStack.ReallocationsApart | src/vm.c:128-133 | no two reallocations within 33 pushes and pops |
| CallStack.ReallocationsLinear | src/vm.c:104-136 | over any history at most one reallocation in 33 operations, up to a constant |
| CallStack.ShrinkLosesFrames | src/vm.c:128-133 | every pop that shrinks the storage leaves live frames outside the block |
| CallStack.FramesInsideIffClose | src/vm.c:104-136 | over any history of one stack, live frames stay inside the block exactly when returns stay close to the deepest call |
| CallStack.ShallowStaysClose | src/vm.c:104-136 | a stack never deeper than 64 meets that condition |
| CallStack.DeepThenShallowLoses | src/vm.c:128-133 | 65 calls and 33 returns do not |
| HashMap.Table.Put | src/util/hashmap.c:239-265 | for keys that are not crowded out, put updates the map at its key and nowhere else, and terminates although rehashing puts |
| HashMap.Table.Rehash | src/util/hashmap.c:180-215 | a table at least twice the size holds the same map, its size exact again |
| HashMap.Table.FindSlot | src/util/hashmap.c:145-174 | the slot where the key's probe ends, or that the table or the chain is full |
| HashMap.Table.Get | src/util/hashmap.c:271-303 | get agrees with the map on every key |
| HashMap.Table.Iterate | src/util/hashmap.c:347-365 | every entry is visited, and no key twice |
| HashMap.StoreUpdates | src/util/hashmap.c:258-262 | storing where the probe ends updates the map and keeps keys distinct |
| HashMap.StoreKeepsReach | src/util/hashmap.c:155-171 | every stored key stays within eight probes of home with no earlier hole |
| HashMap.StoredWhereProbeEnds | src/util/hashmap.c:155-171 | a stored key is where its probe ends |
| HashMap.NoRoomIffCrowded | src/util/hashmap.c:145-174 | in any table without wrap-around a new key's chain is full exactly when the hash values of the stored keys crowd it, however they came to be stored |
| HashMap.NeverFull | src/util/hashmap.c:239-256 | keys that are not crowded out never find a full chain once the table exceeds the hash values, which is why growth ends |
| HashMap.FewKeysAreRoomy | src/util/hashmap.c:155-173 | eight keys or fewer are never crowded out, even with one hash value |
| HashMap.DistinctHashesAreRoomy | src/util/hashmap.c:155-173 | nor are keys with distinct hash values |
| HashMap.AtMostEightShare | src/util/hashmap.c:155-173 | at most eight stored keys have one hash value, whatever the size |
| Parser.FindDef | src/parser.c:891-948 | the first definition of that name and argument count, and exactly when there is none |
| Parser.AssignOpcodes | src/instns/instn.c:28-32 | opcodes equal table positions exactly up to 256 entries |
| Parser.WidthIsLeast | src/parser.c:1032-1042 | the chosen width holds the value, and no smaller one holds an unsigned number |
| Parser.LiteralIsValid | src/parser.c:1023-1043 | every number becomes an operand the generator accepts |
| Parser.LiteralsSurvive | src/parser.c:1023-1043 | in any instruction, whatever its other operands are, a number comes out of the decoder as the 64-bit value written |
| Parser.CollectRefs | src/parser.c:1009-1013 | every label operand enters the reference set, and nothing else |
| Parser.CountMissing | src/parser.c:74-85 | no error exactly when every referenced label is defined |
| Parser.CheckLabels | src/parser.c:115-119 | no error exactly when every label operand of every instruction is defined |
| Parser.CheckedIsValid | src/parser.c:74-119 | a parsed program whose code labels all stand before an instruction is what code generation asks for exactly when the label check counts no error |
| DataSegment.Segment.EnsureMemoryAlloc | src/parser.c:416-430 | memory grows in zeroed blocks and keeps its contents, exactly when the request is at most the greatest reachable size; otherwise the loop does not end |
| DataSegment.Segment.WriteToMemory | src/parser.c:443-449 | exactly the bytes written change and the used size becomes their end; or the growth hangs, or a wrapped end puts the store outside, each with its condition |
| DataSegment.Segment.SetMemorySize | src/parser.c:452-470 | an explicit size trims or extends what is used, to the 32-bit sum, unless growth hangs |
| DataSegment.Segment.AddBytes | src/parser.c:511-591 | a directive completes exactly under a condition on size, offset and length, and then byte-by-byte writing with growth in between is one write at its place |
| DataSegment.Segment.AddLabelRef | src/parser.c:639-678 | only sizes 4 and 8; when the slot completes, zeros and a recorded slot inside the allocation |
| DataSegment.Segment.ResolveLabelRefs | src/parser.c:132-174 | succeeds exactly when every label exists and has a place, and then memory is the resolved one |
| DataSegment.LoopEndsIff | src/parser.c:416-430 | the 32-bit growth loop ends exactly when the request does not exceed the last size before wrap-around, for any request, capacity and either block size |
| DataSegment.ResolvedSlots | src/parser.c:163-170 | non-overlapping slots each hold their label's final address |
| DataSegment.ResolvedElsewhere | src/parser.c:163-170 | every byte outside the slots is unchanged |
| DataSegment.OffsetWithoutSize | src/parser.c:433-440 | when a directive without a size can be met, for each offset, and that offset 0 never is in a fresh segment |
| ReadDir.Pack | src/syscalls/syscall_fs.c:231-312 | for every buffer the check accepts: the loop finishes exactly when no 32-bit sum wraps and the stores land in memory; what is then saved, counted and required; the buffer is packed exactly when the entries leave room for the null pointer or there are none, with the required size those are all entries; and outside the buffer exactly the null pointer's end is written |
| ReadDir.AllSavedIff | src/syscalls/syscall_fs.c:289-303 | all entries are saved exactly from four bytes below the reported size on |
| ReadDir.OrdinaryNeverWraps | src/syscalls/syscall_fs.c:289-305 | with names below 256 bytes and a buffer 261 bytes short of the address space no sum wraps |
| ReadDir.PackedStep | src/syscalls/syscall_fs.c:289-303 | saving one more entry keeps every earlier name and pointer intact |
| ReadDir.NullInName | src/syscalls/syscall_fs.c:294-303 | without room for the null pointer no buffer is packed: the null falls on the last name |
| ReadDir.NameLost | src/syscalls/syscall_fs.c:292-304 | one entry "a" and six bytes: saved, then its name and two bytes past the buffer become zero |
| ReadDir.RoomForAll | src/syscalls/syscall_fs.c:286-303 | with the reported size there is room for each entry and the null pointer |

## Left out

* Files, sockets, pipes, `fork`, `exec`, `kill`, `pselect`, the clock and sleeping: their results are outside input.
* The file and socket event lists: the procedures they start and the memory they change are outside input.
* System calls other than `timeout`, `yield`, `connect` and `onexit`, and the child recording of `exec` and `run`:
  they may leave any memory, flags and error number; they do not touch procedures, timers or exit callbacks.
* Reading and writing image files, the debug-symbol section, and the interactive debugger beyond its disassembly loop.
* Tokenising, `%include`, string escapes, number conversion and error texts: the model starts from parsed operands and
  bytes.
* The binary search and the sort of the instruction table: a sorted table and a hit, or none, are given.
* The concrete hash function and `hmap_remove`, which the assembler does not use.
* Freed memory, and out-of-memory results of `malloc` and `realloc`.
- Toolchain.AssembleAndRun: starts from parsed instructions and directives, and keeps the image in memory where the original writes a file and reads it back.
- Simulation.Simulates: says nothing about a run after it strays to a computed address that is no instruction's place, because the source program has no meaning there.
- Boundaries.LeavesSafetyByRegistration: is about timers and exit callbacks; addresses registered with file and socket calls are kept in the descriptor table, which is outside, so what their events start is input.
- Bracketing.FramesKept: is about storage that keeps the frames its capacity counts; the original's does so exactly under the condition of `CallStack.FramesInsideIffClose`.
- Bracketing.CallReturns: is about such storage too, under the same condition.
- CallStack.Stack.Pop: keeps the live frames; where the original shrinks its block below them, what it then reads is not modelled.
- HashMap.Table.Put: asks that the keys ever used have room in whatever order they come (`Roomy`), because otherwise some order makes the original rehash for ever, and rehashing a table that wraps around changes the order; the table size is unbounded, so the overflow of a 32-bit size is not modelled.
- VmExec.Vm.ExecuteVm: covers any finite number of rounds, because the original may run forever; the child slots with their callback lists are one sequence, reassigned, where the original updates an array.
- SyscallLaws.TimeoutRegisters: keeps the expiry time unbounded.
- DataSegment.Segment.AddBytes: takes the unescaped bytes with the terminating zero as given; hexadecimal and file directives are the same writes in larger pieces. Memory is not described once a growth loop hangs.
- Parser.LiteralsSurvive: takes the number's sign and magnitude as given.
- ReadDir.Pack: says nothing about memory after a store outside it or a wrapped sum, nor after a null pointer went over the names or past the buffer's end.
