# VMMeow in Dafny

VMMeow is a small AMD SVM hypervisor. Stripped of segment loads, screen output and real device
access it is a byte-addressed machine: a VMCB at a fixed address, host, nested and guest page
tables in the same memory, and exit handlers that edit all of them in place. This project models
that machine and proves what the program is for: that its page tables mean what they should
before and after they are moved, that its shortcut through them agrees with the processor's
walk, that an exit touches only what it may, exactly when a guest is confined by them, that
interrupts emulated on the guest's stack undo each other, and that its arithmetic helpers compute
what their names say.

The architecture cited is AMD64 Architecture Programmer's Manual (APM) Volume 2.

## How it is organised

Memory is an array of 2^32 bytes in a `Machine` object together with `GuestRegisters` and the
visor's global variables; the C functions are methods that change it. Each method's
postcondition equates the new contents with a function of the old contents (or states every byte
it may leave), and the lemmas are about those functions.

| file | about |
|---|---|
| `Memory`, `Vmcb`, `Machine` | bytes, words and doublewords; VMCB fields; the accessors of utility.c |
| `Paging` | the architectural walks, the flat lookup, and their agreement |
| `GuestMemory` | guest-mode loads and stores as flat memory |
| `Tables`, `Boot`, `Remap` | building, moving and re-pointing page tables |
| `RealModeStack`, `NestedInterrupts` | INT and IRET on the guest's stack, at any depth |
| `ProcessorStack` | the same two against what a processor would push and pop |
| `Guest`, `Visor` | the exit handlers, the dispatcher and runs of exits |
| `ExitFrame`, `Runs`, `Events`, `Cmos`, `Registers` | what exits change, hand back and report |
| `Confinement`, `BreakOut`, `SealedBoot` | what a guest can write behind the nested tables over whole runs, when exactly it is confined, and whether boot sees to it |
| `Intercepts` | which exits SetupVMCB enables, against the dispatcher's cases |
| `Bits`, `Masks` | bitwise operations and the arithmetic forms the model uses for masks |
| `LongMath`, `Itoa`, `Geometry`, `BitArray` | math.c, Itoa, disk geometry, the I/O bitmap |

Conventions. Addresses wrap at 4 GiB and every width is explicit. The guest is an arbitrary
environment: each exit starts from any memory and any registers whatever; only `Confinement` and
its followers look at how that memory came about, as a sequence of single writes: through the
nested tables, of accessed and dirty bits, of saved state, and by the visor to its own memory.
`InfiniteLoop` is a halted state that nothing leaves. Values read from real ports are inputs. A
mask such as `x & 0xFFFFF000` is written as `x - x % 0x1000`; `Masks` proves these forms equal to
the bitwise operations, which `Bits.BitsOfAnd` and `Bits.BitsOfOr` tie to single bits. In names,
`ExactlyWhen` marks a property that the code meets only under the stated condition, proved in both
directions.

## What the code does otherwise than its comments or intent

- The dispatcher's comment says event injection is turned off on every exit, but the field it
  zeroes is the upper half of EVENTINJ, not its valid bit. After an exit that delivers nothing,
  the lower half is what the processor left (`Events.EmulatesOrInjects`,
  `Events.StepDeliversIntendedEvent`).
- The dispatcher's comment names INT 13h AH=08h, but its mask takes every AH that ends in 8, 18h
  (set media type) among them, for a request of the drive parameters (`Events.EmulatesOrInjects`).
- The segment group's clean bit is never cleared, although an IRET exit changes CS
  (`Runs.SegCleanBitSoundExactlyWhen`).
- start.c's main has its call of SetupPaging commented out (start.c:114), so the boot order as
  written moves whatever lies at the tables' places; identity holds exactly where an identity
  entry was found there (`Boot.IdentityAfterMoveExactlyWhen`, `Boot.MoveAsWritten`).
- Only one nested table is copied while two directory entries are re-pointed
  (`Boot.SecondNestedTableIsStale`); nested identity is therefore claimed below 4 MiB.
- For the same reason boot does not by itself confine the guest: the stale table, or directory
  entries from the third on, which are copied without having been built, may lead to the VMCB
  (`SealedBoot.BootedButUnsealed`), to the visor's own image, stack, host page tables and
  descriptor tables, which share physical memory with the guest (`SealedBoot.BootedVisorExposed`),
  or to the nested tables; `SealedBoot.SealedAfterBootExactlyWhen` has the exact condition.
- Over a block whose other intercept bytes were zero SetupVMCB enables exits for #GP, INTn, HLT,
  shutdown, the SVM instructions and RDTSCP only: the handlers for IRET, ports and control
  registers are there but no exit reaches them (`Intercepts.RaisedExits`).
- Of the intercepted exceptions only vectors 1, 3, 6 and 13 are given back to the guest, vector 1
  as an interrupt; any other is dropped and the guest resumed (`Events.ReflectedExactlyWhen`,
  `Events.RepeatedExactlyWhen`).
- A forwarded word or doubleword OUT sends zero for every byte but the lowest
  (`Cmos.ForwardedOutRightExactlyWhen`).
- Selecting another CMOS register does not clear the latch of the two emulated ones, and their
  selection does not reach the real chip (`Cmos.ServesLastIndexExactlyWhen`).
- Setting a register operand takes the low word of the CS base only, so that for code at 64K and above,
  the BIOS segment's for one, it decodes a byte elsewhere (`Registers.SetsNamedRegisterExactlyWhen`).
- The ESP encoding of a register operand is written to RIP (`Registers.CrReadsDeliverShadow`).
- A byte or word set of any register but EAX zeroes the rest of it
  (`Registers.UpperPartSurvivesExactlyWhen`).
- INT and IRET emulation read the low words of the CS and SS bases, so that bases of 64K and more
  are truncated, and lay the frame out upwards without wrapping round the segment
  (`ProcessorStack.PushIsArchitecturalExactlyWhen`, `ProcessorStack.PopIsArchitecturalExactlyWhen`,
  `NestedInterrupts.CsComesBackExactlyWhen`); IRET always turns IF on
  (`NestedInterrupts.RoundTripExactlyWhen`).
- The first two disk reads of the boot loader drop the high cylinder bits
  (`Geometry.ShortPackingRightExactlyWhen`).
- Bit numbers are called one-based in a comment, but bit 0 is the first
  (`BitArray.MapIsUnion`).

## Model

| member | source | states |
|---|---|---|
| MachineState.Machine.GetMemB | utility.c:103-118 | the byte at the translated or physical address |
| MachineState.Machine.GetMemW | utility.c:120-135 | the little-endian word there, translated once for its first byte |
| MachineState.Machine.GetMemD | utility.c:137-152 | the little-endian doubleword there |
| MachineState.Machine.SetMemB | utility.c:169-182 | exactly one byte changes |
| MachineState.Machine.SetMemW | utility.c:184-197 | exactly the two bytes of the word change |
| MachineState.Machine.SetMemD | utility.c:199-212 | exactly the four bytes of the doubleword change |
| MachineState.Machine.GetVmcbB | utility.c:88-91 | byte at the VMCB's final address plus offset |
| MachineState.Machine.GetVmcbW | utility.c:93-96 | word there |
| MachineState.Machine.GetVmcbD | utility.c:98-101 | doubleword there |
| MachineState.Machine.SetVmcbB | utility.c:154-157 | stores one VMCB byte |
| MachineState.Machine.SetVmcbW | utility.c:159-162 | stores a VMCB word and leaves the field's upper half alone |
| MachineState.Machine.SetVmcbD | utility.c:164-167 | stores a VMCB doubleword |
| MachineState.Machine.Translate | utility.c:223-251 | guest lookup followed by nested lookup |
| MachineState.Machine.constructor | guest.c:20-24 | the shadow flags, CR values and CMOS latch at start |
| Vmcb.PutLowWord | utility.c:159-162 | writing a field's low word keeps its high word |
| Paging.WalkIsFlat | utility.c:223-234 | for any contents of contiguous tables, the two-level walk is the flat lookup where the entry is present and a fault elsewhere |
| Paging.FlatRefinesNestedWalk | utility.c:223-251 | the two flat lookups equal the two-dimensional walk exactly when both leaf entries are present, for any number of tables and any contents |
| Paging.TranslateRefinesNestedWalk | utility.c:235-246 | the same for TranslateGuestPhysicalAddress with the VMCB's CR3 and the nested root |
| Paging.RelocationKeepsWalk | visor.c:173-183 | moved tables with a re-pointed directory translate every covered address as before, whatever they contain |
| Paging.IdentityLookup | utility.c:223-234 | identity tables make the flat lookup the identity |
| GuestMemory.TranslateIsIdentity | utility.c:235-246 | under the visor's tables guest addresses below 4 MiB translate to themselves |
| GuestMemory.TablesKept | utility.c:223-246 | only the VMCB's CR3 and one table a level matter to that |
| GuestMemory.StoresKeepTables | utility.c:169-212 | any sequence of guest stores clear of the page table leaves root and tables in force |
| GuestMemory.GuestStoresAreFlat | utility.c:169-212 | after any sequence of guest stores of mixed width and alignment every byte is the last one stored there, and everything else is untouched |
| GuestMemory.LoadsReturnLastStores | utility.c:103-152 | guest loads of any width return, byte by byte, what was last stored, also across pages |
| GuestMemory.StoresKeepTranslation | utility.c:169-212 | and the stores change no translation |
| Tables.FillTables | start.c:382-389 | the nested loops leave n directory entries at the tables behind them and 1024*n identity entries, and nothing else changed |
| Tables.DoneIsIdentity | start.c:379-411 | tables so filled walk every covered address to itself |
| Tables.SetupPaging | start.c:367-417 | host tables for five and nested tables for two directory entries, nothing else changed |
| Tables.SetupGuestPages | guest.c:30-62 | the same for the guest's two entries |
| Tables.CopyData | utility.c:253-268 | byte-by-byte upward copy |
| Tables.CopyForwardIsBlockCopy | utility.c:253-268 | such a copy is a block copy unless the destination starts inside the source |
| Tables.UpdatePDEntry | paging.c:7-10 | stores frame and low bits 7 in one directory slot |
| Tables.SetupHostIdt | pmode.c:32-82 | the 34 gates hold their wrappers' addresses, selector 50h and type 8Eh, and nothing else changed |
| Tables.LoadedIdtLeadsToHandlers | visor.c:153-168 | LIDT and LGDT load the tables just built, whose operands are packed (PM_DEFS_gcc.H:56-159), and an interrupt of the first 34 vectors goes to its wrapper |
| Tables.MoveStuff | visor.c:141-189 | every byte of memory after the descriptor stores, the five copies, the two re-pointing loops and the IOPM update |
| Tables.FiveCopies | visor.c:173-177 | no copy overwrites a source or a result still needed |
| Boot.RelocationKeepsMeaning | visor.c:173-183 | after MoveStuff the host walk on 16 MiB and the nested walk on 4 MiB are those of the tables before it, whatever they contained |
| Boot.SecondNestedTableIsStale | visor.c:175-180 | between 4 and 8 MiB the nested walk reads what lay at 0x623000 before |
| Boot.SetupVmcbRoots | start.c:461-466 | nested paging on, the nested root and (start.c:581-585) the guest root byte by byte, and no other byte changed |
| Boot.BuildThenMoveIsIdentity | visor.c:141-183 | built and then moved tables: host walk identity on 16 MiB, nested walk and guest-over-nested walk identity on 4 MiB, roots and IOPM base in place |
| Boot.BuildAndMove | start.c:379-411 | with start.c's call of SetupPaging, which is commented out, put back, the boot sequence reaches that state from any memory, with descriptor tables, roots and IOPM base in place, and every byte it neither stores nor computes is the one found where it was copied from |
| Boot.IdentityAfterMoveExactlyWhen | visor.c:173-183 | after MoveStuff each nested address below 4 MiB and each host address below 16 MiB walks to itself exactly when the table entry before the move was present and an identity |
| Boot.MoveAsWritten | start.c:100-131 | the boot sequence as written, without SetupPaging: identity exactly where the memory at start held an identity entry; descriptor tables, re-pointed directory entries, guest tables, IOPM base and both copies of the roots in place all the same, and every other byte the one found where it was copied from |
| Remap.ChangeMappingTableEntries | visor.c:577-601 | new memory as a function of the old, for every window and target, wrapping at 4 GiB |
| Remap.RemappedAround | visor.c:577-601 | a window of aligned entries, also one that runs over 4 GiB, holds its pages in order and nothing behind it changes, as long as it does not catch up with itself |
| Remap.RemappedIsRewritten | visor.c:577-601 | the same for a window of any alignment below 4 GiB |
| Remap.RemapsExactlyItsWindow | visor.c:577-601 | pages of the window are looked up at NewStart + 4096*k, every other page where it was, for any table and target |
| Remap.RemappedWalk | visor.c:577-601 | and so for the processor's walk of contiguous tables: the window's pages are present and lead to their targets, all others are as before |
| Remap.GuestRemap | visor.c:577-601 | under full translation, whatever both levels hold, the window's guest addresses go where the nested level takes the new pages |
| Remap.GuestRemapElsewhere | visor.c:577-601 | and all other guest addresses where they went before |
| Remap.IdentityRemap | visor.c:577-601 | under the visor's identity tables, to the new pages below 4 MiB and to themselves |
| RealModeStack.PushCsIpFlagsOntoGuestStackReal16 | guest.c:148-161 | new memory as a function of the old |
| RealModeStack.PopCsIpFlagsOffGuestStackReal16 | guest.c:164-188 | new memory as a function of the old |
| RealModeStack.UpdateGuestForSoftwareInterrupt | guest.c:268-284 | new memory as a function of the old |
| RealModeStack.HandleInterruptReturn | guest.c:333-346 | new memory as a function of the old |
| NestedInterrupts.InterruptEffect | guest.c:148-161 | INT leaves IP + 2, CS and flags in one frame, SP below it, CS:IP from the vector, IF and TF clear, and nothing else changed |
| NestedInterrupts.VectorReadAfterPush | guest.c:268-284 | wherever the frame lands, CS:IP are those of the vector as memory holds it after the push |
| NestedInterrupts.ReturnEffect | guest.c:164-188 | IRET loads CS:IP and flags from the frame, sets IF, clears TF, raises SP by 6, and changes nothing else |
| NestedInterrupts.ReturnsUndoInterrupts | guest.c:148-284 | n interrupts through any vectors followed by n returns restore SS and SP, leave CS cut to a multiple of 16 below 64K, IP + 2 and the flags with IF set and TF clear, and overwrite only the n frames; up to 10922 levels, with 16-bit wrap-around of SP |
| NestedInterrupts.EveryLevelIsRestored | guest.c:148-284 | so does every intermediate return for its own level |
| NestedInterrupts.CsComesBackExactlyWhen | guest.c:148-284 | at every level of every nesting CS comes back exactly when its base is a multiple of 16 below 64K, for a handler when its vector's segment is below 1000h |
| NestedInterrupts.LaterFramesDisjoint | guest.c:150-157 | frames do not overlap until the stack has come round |
| NestedInterrupts.RoundTripExactlyWhen | guest.c:268-284 | CS comes back exactly when its base is a multiple of 16 below 64K, the flags exactly when IF was set and TF clear |
| ProcessorStack.PushIsArchitecturalExactlyWhen | guest.c:148-161 | whatever the stack held, the memory an INT leaves has flags, CS and IP + 2 where a processor pushes them exactly when the SS and CS bases are below 64K and SP is not 2 to 5 (APM section 8.6) |
| ProcessorStack.HighStackIsMissed | guest.c:150 | for an SS base of 12340h the return IP goes 64K too low and the processor's slot keeps its bytes |
| ProcessorStack.PopIsArchitecturalExactlyWhen | guest.c:164-188 | whatever the stack held, an IRET loads IP, CS and flags (with IF set) from where a processor pops them exactly when the SS base is below 64K and SP is below FFFCh |
| Guest.GetGuestModRegGenRegValue | guest.c:354-422 | the named register's value at the width |
| Guest.SetGuestModRegGenRegValue | guest.c:423-499 | new machine state, ESP encoding included |
| Guest.IncrementGuestIp | utility.c:214-217 | low word of RIP advanced on 16 bits |
| Guest.HandleCr3Write | guest.c:539-548 | new machine state as a function of the old |
| Guest.HandleCr0Read | guest.c:550-561 | new machine state as a function of the old |
| Guest.HandleCr3Read | guest.c:563-571 | new machine state as a function of the old |
| Guest.HandleRealModeSwInterrupt | guest.c:74-146 | new machine state as a function of the old, for every vector |
| Guest.ClearGuestCarryFlag | start.h:196 | only bit 0 of RFLAGS is cleared |
| Guest.HandleGuestIo | guest.c:574-667 | new machine state and bytes sent, as a function of the old and the port values |
| Visor.HandleInterruptExit | visor.c:335-369 | new machine state as a function of the old |
| Visor.HandleException | visor.c:449-479 | new memory as a function of the old |
| Visor.HandleExit | visor.c:304-516 | one exit through the dispatcher, as the step function |
| Visor.VisorLoop | visor.c:207-517 | any number of turns with arbitrary VMRUNs between them, as a run |
| ExitFrame.StepWrites | visor.c:327-516 | from any state every kind of exit writes the VMCB parts listed for it, EVENTINJ's upper half and the clean bits, and no other byte of memory, and changes no register, shadow variable, latch or sent byte but those listed for it |
| ExitFrame.StepFrame | visor.c:327-516 | so from any state without guest paging, an exit changes no byte of memory but EVENTINJ, the clean bits, CS base, RFLAGS, RIP, low RSP and RAX, and never changes the shadow flags or CR0 |
| ExitFrame.CleanBitsAreSound | visor.c:328 | a clean bit left set vouches for unchanged fields, for every group but the segments (APM section 15.15.3) |
| Runs.CleanBitsAfter | visor.c:328-405 | the clean word after each kind of exit, and CS unchanged but by IRET |
| Runs.IretLoadsFrame | guest.c:164-188 | an IRET exit under the visor's tables takes IP, CS and flags from the three words on the guest's stack and raises SP by 6 |
| Runs.SegCleanBitSoundExactlyWhen | visor.c:370-373 | the segment bit is sound exactly when the exit is no IRET or the stacked CS is the current one |
| Runs.FlagsNeverChange | guest.c:20-22 | over every run protected mode and paging stay unmarked and the shadow CR0 stays 10h |
| Runs.EveryTurnIsFramed | visor.c:229-517 | so on every turn of every run the writes are those of its kind of exit, starting from the registers VMRUN left, and the clean bits are sound |
| Runs.HaltsExactlyWhen | visor.c:329-516 | an exit halts exactly for the codes without a case of their own, shutdown, NMI, and HLT with IF clear |
| Runs.NoWorkChangesNothing | visor.c:327-495 | an exit for HLT, a page fault, an exception not reflected or an unknown code changes nothing but the clean bits and the upper half of EVENTINJ, so that HLT with IF set resumes at the HLT; and halts exactly in the cases above |
| Runs.HaltedForGood | visor.c:820-837 | once halted a run stays where it is |
| Confinement.RunOfLoop | visor.c:229-517 | a run of single guest writes and exits is, up to its last exit, one of the visor's loop |
| Confinement.SealedRunKeeps | visor.c:229-517 | if no guest-physical address leads to the VMCB, the visor's memory or the nested tables and neither of the first two is a table, then over every run the intercepts, nested root, IOPM and ASID fields never change, the nested tables change in accessed and dirty bits only, nothing but the visor writes its memory, and this stays so |
| Confinement.NestedTranslationNeverChanges | visor.c:189 | from sealed tables every nested translation, the nested root and the IOPM base are those of the start |
| BreakOut.UnsealedRunBreaks | visor.c:229-517 | from unsealed tables one write and one exit change a protected field or a translation, or reach the visor's memory |
| BreakOut.ConfinedExactlyWhen | visor.c:229-517 | with nested paging on, the protected fields and every nested translation survive all runs and the visor's memory stays its own exactly when the tables are sealed |
| SealedBoot.BootedRunStaysIdentity | visor.c:141-189 | from a booted and sealed state every run keeps the nested walk the identity on 4 MiB |
| SealedBoot.BootedButUnsealed | visor.c:175-180 | with a stale entry for the VMCB at 0x623000 the state is booted and the guest reaches the nested CR3 |
| SealedBoot.BootedVisorExposed | visor.c:175-180 | with one for the visor's data page (start.c:346, visor.map:256) it is booted and the guest reaches the address by which the visor finds the VMCB |
| SealedBoot.SealedAfterBootExactlyWhen | visor.c:141-183 | with the rest of the nested directory empty, boot seals the tables exactly when no stale entry leads to the VMCB, the visor's memory or the nested tables |
| Intercepts.SetupIntercepts | start.c:443-461 | the ten intercept bytes stored, the one only added to, and no other changed; all twenty, if those not written were zero |
| Intercepts.EnabledExits | start.c:443-461 | they enable the exit codes 4Dh, 75h, 78h, 7Fh and 80h to 87h and no others (APM Appendices B and C) |
| Intercepts.InterceptsMoved | visor.c:173 | MoveStuff takes them to the final VMCB |
| Intercepts.RaisedExits | visor.c:329-516 | of the exits that can then happen the visor halts exactly on shutdown, the SVM instructions, RDTSCP, and HLT with IF clear, and none is for IRET, a port or a control register |
| Intercepts.InterceptsNeverChange | start.c:443-461 | from sealed tables this holds for the whole run |
| Events.EmulatesOrInjects | visor.c:335-369 | a software-interrupt exit is answered exactly for INT 15h AH=88h (AX = 0C00h) and INT 13h AH=x8h DL=80h (AX = 0, BX = 0, CX = 037Fh, DX = 0F01h), with carry clear, other flags kept and no event; every other vector, AH and DL is injected with all registers kept; both resume at NRIP and change nothing else |
| Events.EmulatesWhatItAnswers | visor.c:351-353 | the dispatcher's masks on EXITINFO1, AX and DX select exactly these calls, by the bytes the guest left |
| Events.EmulatedBranch | guest.c:92-126 | the dispatcher's test implies a branch of the handler that does not inject |
| Events.HandlerAnswersOrInjects | guest.c:92-142 | the handler on every vector: answer in AX and carry (and the drive parameters), or inject that vector, and nothing else |
| Events.StepDeliversIntendedEvent | visor.c:327-479 | every EVENTINJ value written decodes to the event the handler has for that exit, valid, with zero reserved bits and an error code for #GP only (8*vector + 2 during delivery), other exits leaving it alone (APM section 15.20); whether it is the event the guest should get is RepeatedExactlyWhen's |
| Events.ReflectedExactlyWhen | visor.c:423-479 | an intercepted exception is reflected exactly when its vector is 1, 3, 6 or 13; on all others the exit does nothing beyond what every exit does |
| Events.RepeatedExactlyWhen | visor.c:449-479 | the guest gets the exception it raised, with its own error code, exactly for vectors 3 and 6 and for a #GP outside delivery |
| Events.GpBacksUpDuringDelivery | visor.c:465-479 | RIP moves back by 2 exactly when EXITINTINFO is valid |
| Cmos.LatchReflectsHistory | guest.c:584-626 | over every run the latch is set exactly when a selection of 17h or 18h is unread, and holds the byte of the latest one |
| Cmos.StepMovesLatch | guest.c:584-626 | each exit moves the latch as its access says, other exits not at all |
| Cmos.AccessBytes | guest.c:576-582 | port, direction and size of an access from the bytes of EXITINFO1 (APM section 15.10.2) |
| Cmos.CmosExits | guest.c:611-666 | a latched IN from 71h changes AL only, a selection and an IN from 70h keep RAX and reach no real port, and every path resumes at EXITINFO2's low word |
| Cmos.ForwardedExits | guest.c:628-664 | a forwarded IN replaces exactly the operand's bytes of EAX, a forwarded OUT keeps EAX and appends its bytes |
| Cmos.ForwardedOutRightExactlyWhen | guest.c:649-663 | the low byte is sent followed by zeros, which is the operand exactly when its upper bytes are zero |
| Cmos.ReadDeliversLatestSelection | guest.c:592-620 | an IN from 71h after any run delivers the byte of the selection pending in its history |
| Cmos.LatchedReadRightExactlyWhen | guest.c:584-626 | which is the register asked for last exactly when that is 17h or 18h |
| Cmos.ServesLastIndexExactlyWhen | guest.c:584-626 | on any history the next IN from 71h is of the register asked for last exactly when that is 17h or 18h and unread, or another with no selection pending |
| Cmos.MemorySizeReportsAgree | guest.c:592-602 | for every size of at least 1 MiB the two bytes recombine to AX, and to the true size exactly while it fits 16 bits |
| Cmos.ReportsAgreeOverRuns | guest.c:592-620 | AL values read after selecting 17h and 18h, in any two runs, recombine to 0C00h, the extended memory size |
| Cmos.AxAfterInt15 | guest.c:120-123 | which is what the emulated INT 15h AH=88h leaves in AX |
| Registers.RegistersDecoded | guest.c:355-361 | getting decodes the ModRM byte at CS base + IP + 2, setting (guest.c:426-431) the one at the low word of the base + IP + 2 |
| Registers.SetsNamedRegisterExactlyWhen | guest.c:426-431 | whatever the instruction, the register set is the one named exactly when the CS base is below 64K |
| Registers.SetThenGet | guest.c:423-499 | a set leaves the value cut to the width for the seven encodings but ESP, in the register of that ModRM number as VisorLoop saves it (visor.c:266-271), and nothing else changes; below 64K a get returns it |
| Registers.GetIsValue | guest.c:354-422 | getting returns the register of that ModRM number at the width, for every encoding |
| Registers.EspSetsRip | guest.c:482-488 | setting ESP sets as much of RIP and no register |
| Registers.UpperPartSurvivesExactlyWhen | guest.c:436-498 | the part of the register above the width is kept in EAX and zeroed elsewhere, so it survives exactly in EAX, on a doubleword set, or when zero |
| Registers.CrReadsDeliverShadow | guest.c:550-571 | CR0 and CR3 reads deliver the shadow value (a word for SMSW) and advance RIP's low word by 3; the ESP encoding redirects RIP instead; nothing else changes |
| Registers.CrWritesAreShadowed | guest.c:539-548 | a CR3 write is recorded, and performed only with guest paging marked on; a CR0 write is skipped |
| Masks.PageMasks | utility.c:226-246 | the page and low-bit masks are their arithmetic forms |
| Masks.EntryMask | visor.c:577-601 | the remapped entries are (4096*k + NewStart) OR 7 on 32 bits |
| Masks.FlagMasks | guest.c:158-176 | the IF and TF masks are their arithmetic forms |
| Masks.CleanBitMasks | visor.c:360-372 | the clean-bit masks are their arithmetic forms |
| Masks.BitMasks | guest.c:102 | so are the single-bit tests of AH, RFLAGS (visor.c:488), EXITINFO1 (guest.c:579-581) and EXITINTINFO (visor.c:471) |
| Masks.FieldMasks | guest.c:651-662 | and the byte masks of a forwarded OUT, the ModRM field (guest.c:362), the sector in CL and AH & 0Fh (visor.c:353) |
| Masks.JoinMasks | utility.c:231-246 | a frame ORed with a page offset is their sum |
| Masks.VectorAndStatusMasks | visor.c:367 | so is a vector ORed into EVENTINJ, and AL into an error status (guest.c:127) |
| Bits.BitsOfAnd | math.c:2-9 | the AND used for masks and longs is bit by bit |
| LongMath.Laddl | math.c:11-18 | 32-bit sum and carry in BX:AX, upper register halves kept |
| LongMath.Lsubl | math.c:31-38 | 32-bit difference and borrow, upper register halves kept |
| LongMath.Landl | math.c:2-9 | bitwise AND of the longs, upper register halves kept |
| LongMath.Lorl | math.c:59-66 | bitwise OR of the longs, upper register halves kept |
| LongMath.WordParts | math.c:2-9 | bitwise operations on halves are those on the whole |
| LongMath.Lcmpl | math.c:20-29 | equality in ZF, unsigned order in CF, signed order in SF and OF; the long gathered in EAX and its high word in EBX |
| LongMath.CompareFlags | math.c:20-29 | SF differs from OF exactly for signed less |
| LongMath.Ltstl | math.c:75-83 | zero and sign of the long, which is gathered in EAX |
| LongMath.Lmull | math.c:40-50 | the full product, low half in BX:AX |
| LongMath.Ldivul | math.c:126-139 | quotient and remainder, the fault exactly for divisor zero |
| LongMath.Lsrul | math.c:85-98 | division by 2^DI for every 16-bit count, which is used up |
| LongMath.Lsll | math.c:100-114 | multiplication by 2^DI modulo 2^32 for every 16-bit count, which is used up |
| LongMath.LongShiftsAreZero | math.c:85-114 | counts above 31 clear the long |
| Itoa.Itoa | utility.c:310-333 | the text and its NUL in the buffer, the rest of it untouched |
| Itoa.EmitDigits | utility.c:322-326 | the digit loop leaves the numeral reversed |
| Itoa.ReverseInPlace | utility.c:330-331 | the two-pointer loop reverses the first n characters |
| Itoa.NumeralRoundTrip | utility.c:323-326 | positional reading gives the value back, and there is no leading zero |
| Itoa.TextRoundTrip | utility.c:318-333 | the text parses back to the value, signed in radix 10 and as the 32-bit pattern otherwise, for radix 2 to 36 |
| Itoa.DigitCount | utility.c:323-326 | n digits exactly for values from radix^(n-1) up to radix^n |
| Itoa.HexWidth | utility.c:310-333 | at most 8 characters in radix 16 |
| Geometry.LbaRoundTrip | utility.c:356-367 | chsToLBA undoes lbaToCHS for every address and geometry |
| Geometry.ChsRoundTrip | utility.c:356-367 | and the reverse for every place on the disk, on unbounded integers |
| Geometry.RoundTripOn32BitsExactlyWhen | utility.c:356-367 | with 32-bit ints, wrapping and truncating division, the reverse holds exactly while the address is below 2^31, or for the first sectors of the last 2^31 / SPT of 2^32 tracks |
| Geometry.OrderIsLexicographic | utility.c:364-367 | address order is the order of cylinder, head, sector |
| Geometry.LbaChs | bootloader.2:129-149 | the registers and the divide faults of the 16-bit routine, for every dividend |
| Geometry.LbaChsWraps | bootloader.2:129-149 | the registers hold lbaToCHS of the address modulo 65536 tracks |
| Geometry.LbaChsRightExactlyWhen | bootloader.2:129-149 | for any geometry it is lbaToCHS exactly for addresses below 65536 tracks |
| Geometry.PackForRead | bootloader.2:91-96 | head in DH, cylinder and sector packed in CX, and what each register keeps |
| Geometry.StoreGeometry | start.c:64-69 | sectors, heads and cylinders taken out of the CX and DX given, CL shifted and the other registers kept |
| Geometry.HeadRoundTrip | bootloader.2:91 | the head put in DH for a read is the one main takes out of DH (start.c:64), DL and the upper half of EDX kept |
| Geometry.PackedCxUnpacks | bootloader.2:91-96 | unpacking returns the sector modulo 64 and the cylinder modulo 1024 (ORed with a sector's bits 6 and 7 if it has any), so the cylinder exactly below 1024 |
| Geometry.ShortPackingRightExactlyWhen | bootloader.2:60-62 | the short packing keeps the low eight cylinder bits, so the cylinder exactly below 256 |
| Geometry.BootReadRightExactlyWhen | bootloader.2:89-96 | LBACHS, packing and unpacking together: the sector read is the one at the address exactly below 65536 tracks and cylinder 1024 (256 with the short packing, bootloader.2:59-62), for every geometry of up to 63 sectors and 256 heads |
| BitArray.UpdateBit | utility.c:344-354 | one byte of the map ORed, and returned |
| BitArray.UpdatedBit | utility.c:348-350 | exactly the requested bit may become set |
| BitArray.MapIsUnion | utility.c:344-354 | after any sequence of updates the map is the initial set united with the bits requested with value 1 |

## Left out

- Segment, control-register, MSR and descriptor-table loads, VMLOAD, VMRUN and VMSAVE: the guest's turn is an arbitrary change of memory and registers.
- Page permissions beyond the present bit and large pages: entries are otherwise unconstrained, and in Confinement a present entry counts as writable.
- Device DMA, which does not pass the nested tables, and the processor's host save area, whose address no live statement sets (visor.c:205).
- A VMRUN the processor refuses, and a stack word at offset FFFFh, where it faults (INT with SP 1, 3 or 5, IRET with SP FFFBh, FFFDh or FFFFh).
- The visor's variables and stack as bytes of memory: they are fields of the machine, and Confinement lets the visor's own memory change by its own writes in any way.
- Real ports, timers, the PIC and the keyboard: values read are inputs, and bytes sent are recorded in order.
- Screen output, exception messages, logging, the GDT entries, and SetupVMCB's initial guest state: only straight-line facts.
- CopySegment0, the zeroing of the I/O map and the stores through a doubleword pointer to the IOPM base in visor.c's main: they touch neither tables nor the VMCB fields used here.
- Disk loading, memory map, MoveVisor and interrupt wrappers: boot plumbing.
- Statements after the early returns in guest.c, VerifySVM, and bitarray_GetBit, whose shift does not match bitarray_UpdateBit.
- Signed division, 16-bit modulo, and the increment and decrement helpers of math.c: one instruction each.
- Itoa.Itoa: negating the least 32-bit integer is taken to wrap, as the generated code does.
- Boot.MoveAsWritten: of SetupVMCB's stores only the nested enable and the roots; the intercept bytes are those of Intercepts.SetupIntercepts.
- Registers.CrReadsDeliverShadow: requires the instruction below 4 MiB under the visor's tables; for any other state ExitFrame.StepWrites says what may change.
- Events.StepDeliversIntendedEvent: takes the event of each exit from the handler's own cases; Events.RepeatedExactlyWhen compares it with the architecture's.
- Geometry.ChsRoundTrip: no 32-bit wrap-around; Geometry.RoundTripOn32BitsExactlyWhen has it.
- ExitFrame.CleanBitsAreSound: does not cover the segment group, for which the exact condition is given instead.
- NestedInterrupts.ReturnsUndoInterrupts: assumes identity translation and a zero high word of RSP, as the two routines address the stack differently otherwise.
- ProcessorStack.PushIsArchitecturalExactlyWhen: the same, and an SS base that real mode can load.
- Cmos.ServesLastIndexExactlyWhen: takes the index the real chip holds to be the last one forwarded through port 70h itself.
