# Verified model of my-dbg

my-dbg is a small ptrace debugger for x86-64 Linux. This project models the five parts of it that
carry an invariant, in the form they have in the C code, and proves what they are for. It is written
for Dafny 4.11. To verify it, run
`dafny verify --resource-limit 8000000 --verification-time-limit 0 dfyconfig.toml`; each proof is meant
to stay below a quarter of that limit.

**The breakpoint engine and the run loop** (`Tracee`, `Breakpoints`, `Commands`, `Debugger`,
`OneShot`, `Transparency`, `Stops`, `Onlooker`, `Quiet`, `Books`, `WatchArray`, `Pitfalls`). The
processor is an arbitrary deterministic function on registers and bytes. The kernel is a list of events,
one for each wait: how many instructions run unless the process stops before, and what happens then.
Every list is a possible behaviour, so a theorem over all lists is one over all behaviours. A wait with no event left is a wait
that fails, which throws WaitException past everything that was still to be done. `Commands` says as
functions on the whole state what each C function does; the class `Debugger` does it step by step and
is proved equal to it; the other modules prove what follows. A session ends with `quit`, or with a store
outside of the watch array, after which nothing is known. The main results are `Transparent` (over any
sound session without misfire, the debugged process is where the program alone gets to, int3s apart,
and has been given the same signals in the same order), `Followed` (the same with misfires, each one a
detour of RIP), `QuietSession` (what excludes misfires to begin with), `ContinueStopsAtFirst` and
`PassedOverIff` (where a continue stops, said by an onlooker who patches nothing, and which breakpoints
it passes over), `SignalsConservedIff` and `ContinueCatchesIff` (which signals get through and which
system calls are reported). `Pitfalls` has short sessions at which the expected properties fail.

**The line-number program** (`Bytes`, `Arithmetic`, `Leb128`, `LineProgram`, `LineRefinement`,
`LineHistory`, `LineMachine`, `LineHeader`, `LineTable`). Instructions have a meaning and an encoding
after the DWARF 4 standard, sections 6.2.2, 6.2.4, 6.2.5.1 to 6.2.5.3 and 7.6. The machine runs on
bytes. The theorems about encoded programs are for two readers of LEB128 numbers: the one in the code,
which misreads many, and the one it is meant to be, with the continuation bit masked out, 64-bit shifts
and a sign. The class `Machine` has the one in the code.

**GNU hash lookup** (`GnuHash`): Bloom filter, buckets and chains against a plain scan.

**try and catch** (`Exceptions`, `EnvStack`): the setjmp machine against a compositional semantics for
all programs, and that against structured exceptions.

**Temporary memory and sizes** (`Arena`, `Decimal`): who owns the blocks and frees them, the array of
rows on top of them, and the reading of decimal arguments.

## Where the code and its intent differ

The model follows the code. In each of these places the property that one would expect fails, and a
theorem says exactly when it holds.

- `read_leb128` (`src/infos/my_dwarf.c:32`) keeps the continuation bits, because it shifts an int left
  and right again. A number is read back exactly if it is at most 2^31 - 1 and the lowest bit of each
  group of seven but the first is set (`UlebReadIff`); 256 is read as 384 (`Misread`). `Garbled` is what
  is read otherwise, and the machine theorems are stated for the numbers as read. With the mask, the
  shift and the sign mended, every number and every program is read as it was written
  (`MendedReadsUleb`, `MendedReadsSleb`, `MendedRunsAll`).
- advance_line reads its signed operand without the sign (`src/infos/dwarf_state_machine.c:138`): the
  line is right exactly for readable operands that are not negative (`SlebAddsIff`).
- `get_address_gnu_hash` clears the low bit of one of the two hashes it compares
  (`src/infos/gnu_hash_table.c:124`): a name with an odd hash is never found (`LookupIsScanIff`). The scan
  that follows finds it nevertheless if it is a function (`UniqueFoundIff`); if it is not, the search
  goes on to the same name in later objects (`InObjectIff`, `FindInObjects`). With the bit left out of
  both hashes the lookup agrees with a scan for every name.
- `break_del` (`src/commands/cmd_break_del.c:37-39`) leaves the int3 of an ordinary breakpoint in the code
  (`DeleteKeepsPatchedIff`) and takes its code bytes for an index of the watch array, inside of it
  (`DeleteAgreesIff`) or outside (`DeleteOverrunsIff`).
- `place_breakpoint` accepts an address where a breakpoint is armed, and then saves 0xCC
  (`PlaceKeepsPatchedIff`).
- `wait_program` takes any stop one byte after a live breakpoint for a hit (`StopKeepsLinkIff`; from RIP
  2 with a breakpoint at 1, signal 10 moves RIP to 1: `SignalMovesBack`), and swallows a SIGTRAP of the
  program that arrives there or during a step (`SignalsConservedIff`, `SignalSwallowed`).
- A step that delivers a signal executes the int3 of a breakpoint at which the handler begins for an
  instruction, and leaves RIP one byte behind it (`StepsOnce`, with the exact case).
- Stepping from the entry stop of a system call, which `continue_execution` does by itself when a
  breakpoint follows the call, hides its exit stop; from then on entries and exits are confused
  (`EntryFlagExact`, `ContinueCatchesIff`; an input is in `FlagLeftSet`).
- Once there has been a system call breakpoint, deleted or not, `continue_execution` steps off a
  breakpoint at the exit stop of a call as if it had been hit (`src/binary.c:118-122`, then
  `src/binary.c:182`): a breakpoint is passed over exactly where a call is left that was entered with no
  breakpoint at RIP (`PassedOverIff`; in `BreakpointSkipped` a call at 10 is left at 50, as sigreturn
  does). At the entry stop it steps off the breakpoint behind the call, which uses up a temporary one
  (`BehindCallIff`, `TemporarySkipped`).
- A handler that throws is run again by its own try, perhaps for ever (`TryIsTextbookIff`,
  `ThrowingHandlerLoops`).
- A temporary breakpoint at the current RIP is used up by leaving it, without having been hit
  (`StepTakesOutIff`; `ContinueStopsAtFirst` says the same of the table after a continue).
- `tmp_realloc` loses the block handed out last if it cannot be extended (`ReallocOwnsIff`).
- `read_size` accepts a minus sign, and then reads the number modulo 2^64 (`ReadsSpeltIff`, with
  `MinusIsRead` for examples).

## Model

| member | source | states |
|---|---|---|
| Breakpoints.GetBreakpoint | src/breakpoints.c:19-36 | the first entry that is at the address, enabled, not deleted and no system call breakpoint; -1 exactly if there is none |
| Breakpoints.PokePeek | src/breakpoints.c:43-53 | writing back a word that was just read changes no byte |
| Breakpoints.PokeLowByte | src/breakpoints.c:43-53 | read, replace the low byte, write: one byte changes although eight are written |
| Breakpoints.TogglePatched | src/breakpoints.c:38-56 | toggling keeps the patch invariant: int3 exactly at live breakpoints, the program's own bytes elsewhere, saved bytes original |
| Breakpoints.PlaceKeepsPatchedIff | src/breakpoints.c:58-90 | placing keeps the patch invariant exactly if no breakpoint is armed at the address |
| Breakpoints.DeleteKeepsPatchedIff | src/commands/cmd_break_del.c:28-39 | deleting keeps it exactly if the breakpoint was not live or the program has an int3 of its own there |
| Debugger.Debugger.constructor | src/binary.c:23-27 | no breakpoints, no watched calls, no signal pending |
| Debugger.Debugger.GetBreakpoint | src/breakpoints.c:19-31 | the search loop finds the first live breakpoint |
| Debugger.Debugger.ToggleBreakpoint | src/breakpoints.c:38-56 | the whole new state is `Commands.Toggle` of the old one |
| Stops.PlacedEntry | src/breakpoints.c:73-90 | the one entry that placing appends has the address, the flags, the word and the id that it should have, and is live |
| Stops.PlacedHitIff | src/commands/cmd_next_instr.c:29-32 | in a session that places a breakpoint where none is live and continues, after a stop taken for a hit there a breakpoint is live at the address exactly if it was not placed as temporary, internal or not |
| Debugger.Debugger.PlaceBreakpoint | src/breakpoints.c:58-90 | the whole new state, and the id |
| Debugger.Debugger.AddSyscallBreak | src/syscalls.c:38-45 | the whole new state |
| Debugger.Debugger.InSyscalls | src/syscalls.c:26-36 | the search loop decides membership, and -1 is never watched |
| Debugger.Debugger.BreakDel | src/commands/cmd_break_del.c:19-39 | refused; marked as deleted and about to store out of the array; or deleted, each with the whole new state |
| Debugger.Debugger.Resume | src/binary.c:166-168 | the pending signal is delivered once and forgotten |
| Debugger.Debugger.LandOn | src/binary.c:80-94 | a temporary breakpoint is taken out, RIP goes back by one, a SIGTRAP is dropped |
| Debugger.Debugger.CountSyscallStop | src/binary.c:96-104 | flips the entry flag and answers whether this is a watched entry |
| Debugger.Debugger.Interrupted | src/binary.c:76-124 | the whole new state after a stop that is not the end of a step, and whether to go on |
| Debugger.Debugger.HandleStop | src/binary.c:65-147 | the whole new state is that of `Commands.Handle` |
| Debugger.Debugger.WaitProgram | src/binary.c:59-147 | state, value and exception are those of `Commands.WaitProgram` |
| Debugger.Debugger.SingleStep | src/binary.c:153-176 | the same for `Commands.SingleStep` |
| Debugger.Debugger.ContinueExecution | src/binary.c:178-191 | the same for `Commands.ContinueExecution` |
| OneShot.HandleEvolves | src/binary.c:80-94 | a stop at most uses up a temporary breakpoint |
| OneShot.WaitEvolves | src/binary.c:59-147 | so does a wait with all that follows from it |
| OneShot.StepEvolves | src/binary.c:153-176 | a step that is not cut short leaves every permanent breakpoint as it was and at most uses up temporary ones |
| OneShot.ContinueEvolves | src/binary.c:178-191 | the same for continue |
| Stops.StepTakesOutIff | src/binary.c:153-176 | a step that runs to its end uses up exactly the temporary breakpoint it starts from and the one its stop is taken for a hit of; all other entries stay as they were |
| OneShot.UsedUpForGood | src/breakpoints.c:40-41 | over any session a used-up temporary breakpoint never comes back |
| Transparency.ExecLinked | src/breakpoints.c:67-71 | one act of the patched process is the same act of the native one |
| Transparency.BreakLinked | src/binary.c:76-90 | an int3 is one of the debugger's, unseen by the native program, or its own |
| Transparency.RunLinked | src/binary.c:185-190 | running patched until any stop is running the native program, one byte after an int3 of the debugger |
| Transparency.StopKeepsLinkIff | src/binary.c:76-94 | handling a stop keeps the process linked to the native one exactly if RIP is moved back for an int3 of the debugger and for nothing else |
| Transparency.HitTakesOutIff | src/binary.c:84-85 | of all breakpoints, a stop takes out exactly the temporary one that it is taken for a hit of |
| Transparency.ResumeLinked | src/binary.c:166-168 | resuming delivers the pending signal to both |
| Transparency.StopDetour | src/binary.c:76-94 | whatever a stop is taken for, the process is linked to the program after a detour of one byte for a misfire, and none otherwise |
| Transparency.WaitLinked | src/binary.c:59-147 | a wait keeps the link, with a detour for each misfire, back onto a patched address or, in a step, past one that a signal has just led to |
| Transparency.StepLinked | src/binary.c:153-176 | so does unpatching, stepping and patching again |
| Transparency.ContinueLinked | src/binary.c:178-191 | so does continue |
| Transparency.Followed | src/binary.c:59-191 | over any sound session, whatever misfires: registers equal, and memory equal outside live breakpoints, to some number of native acts with one detour of RIP for each misfire of the trace in order, each back onto a patched address or past one that a signal has just led to, and all signals delivered natively are those injected, in order; the program is to leave patched bytes alone on these courses only |
| Transparency.Transparent | src/binary.c:59-191 | over any sound session without misfire, the same without detours |
| Transparency.TransparentFromStart | src/binary.c:23-27 | the same from the start of the debugger on |
| Stops.StepsOnce | src/binary.c:153-176 | a step delivers the pending signal and is then exactly one native instruction, or the rest of a system call, or the int3 of another breakpoint if the signal has led onto one, and uses up a temporary breakpoint it leaves, unless the process ends, the wait fails, or a signal comes, which stays pending and is taken for a hit one byte after any other live breakpoint, or, as a SIGTRAP sent before the process has run, for the end of the step; it throws exactly if the wait fails or the process ends in a step off a permanent breakpoint |
| Onlooker.RunStopsAtFirst | src/binary.c:185-190 | a patched run ends where the native program first comes to a live breakpoint, an int3 of its own or a system call stop, or at the end of its budget, whatever ends that |
| Onlooker.ContinueStopsAtFirst | src/binary.c:178-191 | whatever is or has been watched, and whether or not a signal is pending, which is delivered first, running or on the way into the step off a breakpoint: continue is back exactly at the first native state that gives a reason (a live breakpoint or own int3 come to by running, a flagged stop of a watched call, a call stop one byte behind a breakpoint), with the table, flag, pending signal and native state that belong to it, unless a signal comes, which has its own exact state, the process ends or the wait fails before; a step whose end is mistaken, for a SIGTRAP sent before it has run, is left out of the run |
| Onlooker.PassedOverIff | src/binary.c:118-122 | a live breakpoint that the program comes to is passed over exactly if a call is left at it, unannounced, that was entered with no breakpoint at RIP |
| Onlooker.BehindCallIff | src/binary.c:182 | a breakpoint behind a call is hit when the call returns to it from its entry stop exactly if it is permanent |
| Quiet.QuietSession | src/binary.c:59-191 | without signals, int3s of the program's own and calls one byte behind a patch, any sound session, with any system call breakpoints, leaves the process exactly where the program is after some number of native acts, int3s apart; nothing misfires |
| Quiet.ContinueOutside | src/binary.c:178-191 | where no system call breakpoint was ever placed, a continue takes two events at most and does not end inside of a call |
| Quiet.SessionOutside | src/binary.c:59-191 | so a session without them stops between whole instructions, whatever the events |
| Pitfalls.SignalMovesBack | src/binary.c:76-90 | a session at which a signal one byte after a breakpoint moves RIP onto it |
| Pitfalls.SignalSwallowed | src/binary.c:69-74 | a session at which a SIGTRAP sent during a step is lost |
| Pitfalls.FlagLeftSet | src/binary.c:102 | a session after which the entry flag is set outside of any call |
| Pitfalls.BreakpointSkipped | src/binary.c:118-122 | a session in which the program comes to a live permanent breakpoint and runs over it to its end |
| Pitfalls.TemporarySkipped | src/binary.c:182 | a session in which a temporary breakpoint behind a call is gone without a hit |
| Books.SignalsConservedIff | src/binary.c:67-98 | over any session the signals injected, and the one pending, are those meant for the program, in order and once each, exactly if no SIGTRAP of the program's own came during a step or one byte after a breakpoint |
| Books.EntryFlagExact | src/binary.c:102 | over any session the entry flag is the parity of system call stops, and true of the kernel exactly after an even number of steps from entry stops, at the end and at each stop on the way |
| Books.ContinueCatchesIff | src/binary.c:96-124 | after any session, a continue passes over each system call stop away from breakpoints until the first that is of a watched call and a real entry, or a real exit if the number of steps from entry stops is odd by then, and returns at that one; if it throws, all those stops were passed over and none was of that kind |
| Books.SessionBooks | src/binary.c:59-191 | signals, parity and synchrony are kept by every command |
| WatchArray.InSyscallsIff | src/syscalls.c:26-36 | a number other than -1 is watched exactly if an undeleted breakpoint is for it |
| WatchArray.AddAgrees | src/syscalls.c:38-45 | adding keeps table and array in agreement, with distinct indices and ids one above positions |
| WatchArray.AddWatches | src/syscalls.c:38-45 | adding has exactly that number watched besides those that were, unless it is -1, and appends one entry for it |
| WatchArray.DeletesById | src/commands/cmd_break_del.c:19-37 | deleting marks the breakpoint with that id and no other, and is refused exactly if there is none or it is marked already |
| WatchArray.DeleteWatches | src/commands/cmd_break_del.c:37-39 | after a breakpoint on a system call is deleted, a number is watched exactly if another undeleted one is for it |
| WatchArray.DeleteAgreesIff | src/commands/cmd_break_del.c:37-39 | deleting keeps the agreement exactly for system call breakpoints, or if the store hits a -1 |
| WatchArray.DeleteOverrunsIff | src/commands/cmd_break_del.c:39 | deleting stores outside the array exactly for a breakpoint on code whose saved word is no index of it; never for one on a system call |
| WatchArray.SessionAgrees | src/breakpoints.c:74-89 | the agreement holds after every session that deletes system call breakpoints only |
| Leb128.ReadLeb128 | src/infos/my_dwarf.c:24-39 | the loop computes `ReadFrom` |
| Leb128.ReadsUleb | src/infos/my_dwarf.c:24-39 | what is read, from any group on, for the encoding of any number, and when there is no defined result |
| Leb128.UlebReadIff | src/infos/my_dwarf.c:24-39 | the number is read back exactly if it fits an int and the low bit of each later group is set |
| Leb128.SlebAddsIff | src/infos/dwarf_state_machine.c:137-138 | a line delta is added rightly exactly if it is readable and not negative |
| Leb128.Misread | src/infos/my_dwarf.c:32 | 256 is read as 384, deltas 64 and -1 as 192 and 127 |
| Leb128.MendedReadsUleb | src/infos/my_dwarf.c:24-39 | the loop with the mask and the 64-bit shift it is meant to have undoes the encoding of every number below 2^64, and consumes exactly its bytes |
| Leb128.MendedReadsSleb | src/infos/my_dwarf.c:24-39 | with the sign filled in as well, that of every number from -2^63 to 2^63 - 1 |
| Leb128.AsReadIff | src/infos/my_dwarf.c:24-39 | the mended reader gives back every number, the one in the code exactly the readable ones |
| LineProgram.Fetch | src/infos/dwarf_state_machine.c:229-252 | every instruction consumes at least one byte, and none beyond the section |
| LineRefinement.FetchEncoded | src/infos/dwarf_state_machine.c:59-180 | decoding the encoding of any instruction gives it back as read, and consumes exactly its bytes |
| LineRefinement.RunsEncoded | src/infos/dwarf_state_machine.c:217-267 | running an encoded program appends exactly the rows of the program as read |
| LineRefinement.BadIff | src/infos/dwarf_state_machine.c:91-180 | decoding throws exactly at a standard opcode above 12 and at an extended one other than 1, 2 and 4 |
| LineRefinement.UnknownThrows | src/infos/dwarf_state_machine.c:217-252 | after any program, such an instruction ends the run with the exception |
| LineRefinement.InstrAsReadIff | src/infos/my_dwarf.c:24-39 | an instruction is read as written exactly if its operand is readable |
| LineRefinement.RunsExactly | src/infos/dwarf_state_machine.c:217-267 | with readable operands, exactly the rows that the program means, and all of its bytes |
| LineRefinement.MendedRunsAll | src/infos/dwarf_state_machine.c:217-267 | with the reader mended, this for every program, negative line advances included |
| LineRefinement.ExpandOne | src/infos/dwarf_state_machine.c:185-215 | a special opcode is advance_line, advance_pc and copy; const_add_pc is the advance of opcode 255 |
| LineRefinement.ExpansionKeepsMeaning | src/infos/dwarf_state_machine.c:121-215 | spelling these out anywhere in any program changes neither rows nor final registers |
| LineRefinement.OneOperation | src/infos/dwarf_state_machine.c:51-56 | in terms of the header fields: one operation adds 1 to op_index and keeps the address, or, when op_index reaches maximum_operations_per_instruction, 1 before version 4, sets it to 0 and adds minimum_instruction_length to the address; no operation changes nothing |
| LineRefinement.SpecialParts | src/infos/dwarf_state_machine.c:191-199 | a special opcode's distance from opcode_base is line_range times the operations it advances by plus the lines above line_base, which are fewer than line_range |
| LineRefinement.AdvanceAdds | src/infos/dwarf_state_machine.c:47-57 | advancing by a and by b is advancing by a + b, for address and op_index, short of 64-bit overflow |
| LineRefinement.RunInRange | src/infos/dwarf_state_machine.c:55-56 | for any bytes, every row has op_index below the maximum and registers within their widths |
| LineHistory.RegistersAreHistory | src/infos/dwarf_state_machine.c:59-215 | after any program file, column, isa, is_stmt, line, the marks and the discriminator are what the last instructions about them say, and there is a row for each instruction that stores one |
| LineHistory.RowsShowHistory | src/infos/dwarf_state_machine.c:75-215 | every row of any program, whichever instruction stored it, shows the history up to it, the two advances of a special opcode included, and is marked exactly if it ends a sequence |
| LineHistory.RowsShowPosition | src/infos/dwarf_state_machine.c:47-215 | every row lies at the address and op_index of the operations advanced by up to it |
| LineHistory.AddressIsPosition | src/infos/dwarf_state_machine.c:47-57 | after any program address and op_index are those of the number of operations since an address was last set, however they were split up |
| LineMachine.Registers.Reset | src/infos/my_dwarf.c:116-125 | the initial registers |
| LineMachine.Registers.AdvanceAddrAndOpIndex | src/infos/dwarf_state_machine.c:47-57 | the new registers are `LineProgram.Advance` of the old, which OneOperation and AdvanceAdds determine |
| LineMachine.Machine.CloneState | src/infos/dwarf_state_machine.c:31-45 | one more row with the present registers, all earlier rows as they were stored |
| LineMachine.Machine.SpecialInstruction | src/infos/dwarf_state_machine.c:185-215 | registers and rows after a special opcode |
| LineMachine.Machine.StandardInstruction | src/infos/dwarf_state_machine.c:111-180 | registers, rows, cursor or exception for any standard opcode byte |
| LineMachine.Machine.OperandInstruction | src/infos/dwarf_state_machine.c:134-172 | the same for those with a LEB128 operand |
| LineMachine.Machine.ExtendedInstruction | src/infos/dwarf_state_machine.c:59-109 | the same for extended opcodes |
| LineMachine.Machine.RunMachine | src/infos/dwarf_state_machine.c:217-267 | the loop over the bytes is `LineProgram.Run`, with the rows kept apart from the registers, and the array that it returns points to them in order and then to nothing |
| LineHeader.StrLen | src/infos/my_dwarf.c:68 | the end of a string |
| LineHeader.ReadStrings | src/infos/my_dwarf.c:99-109 | the null-terminated array of the strings, and where they end |
| LineHeader.ReadFile | src/infos/my_dwarf.c:62-74 | one file entry with its three numbers |
| LineHeader.StoreFiles | src/infos/my_dwarf.c:51-80 | the null-terminated array of the file entries |
| LineHeader.DwarfLinesConfig | src/infos/my_dwarf.c:83-114 | fields, tables, start and size, in either layout |
| LineHeader.StringsBack | src/infos/my_dwarf.c:104-107 | any list of non-empty names is read back from its bytes |
| LineHeader.FilesBack | src/infos/my_dwarf.c:57-75 | any list of file entries is read back, with its numbers as read |
| LineHeader.ParsesBack | src/infos/my_dwarf.c:83-114 | parsing a written unit of version 2, 3 or 4 gives back configuration, directories, files, and where the program is |
| LineHeader.FilesAsReadIff | src/infos/my_dwarf.c:70-74 | the file table is unchanged exactly if all its numbers are readable |
| LineHeader.UnitMeansItsRows | src/infos/my_dwarf.c:143-154 | from the bytes of a whole unit to exactly the rows its instructions mean |
| LineTable.GetNearestState | src/infos/my_dwarf.c:156-191 | the last of the rows with the greatest address not above the one asked for, none exactly if all are above |
| LineTable.GetLineAddress | src/infos/my_dwarf.c:247-259 | the base plus the address of the first row of the line; an exception exactly if there is none |
| GnuHash.HashAppends | src/infos/gnu_hash_table.c:26-34 | the hash of the empty name is 5381, and one more byte at the end makes it 33 times the hash plus the byte, modulo 2^32 |
| GnuHash.AndMask | src/infos/gnu_hash_table.c:101 | with a power of two of filter words, masking takes the remainder by their number |
| GnuHash.MaskOnce | src/infos/gnu_hash_table.c:26-34 | hashing in 64 bits and masking at the end is 32-bit arithmetic throughout |
| GnuHash.DlNewHash | src/infos/gnu_hash_table.c:26-34 | the loop computes that hash |
| GnuHash.PresentPasses | src/infos/gnu_hash_table.c:99-109 | a filter that or-s together two bits for each symbol, for any number of words and any second shift, rejects none of them |
| GnuHash.RunStart | src/infos/gnu_hash_table.c:111-129 | every symbol is on the chain of its own bucket, with no end bit before it |
| GnuHash.WalkStaysInBucket | src/infos/gnu_hash_table.c:116-130 | a walk never leaves its bucket or the table before an end bit |
| GnuHash.LookupIsScanIff | src/infos/gnu_hash_table.c:88-133 | on every table that is laid out as a linker does, the lookup finds what a scan finds exactly if the hash is even or there is nothing; for every name if the comparison leaves the low bit out of both hashes |
| GnuHash.OddName | src/infos/gnu_hash_table.c:124 | a name with an odd hash |
| GnuHash.GetAddressGnuHash | src/infos/gnu_hash_table.c:88-133 | the lookup with its loop |
| GnuHash.GetAddressDyn | src/infos/my_elf.c:303-326 | the address of the first function of that name |
| GnuHash.UniqueFoundIff | src/infos/my_elf.c:394-402 | a name of its own is found in its object exactly if it is a function or hashed with an even hash, and otherwise its object answers that it has no such name |
| GnuHash.InObjectIff | src/infos/my_elf.c:394-402 | in terms of the symbols alone: an object answers with its first hashed symbol of the name, if the hash is even and that has an address, or else with its first function of the name, and with nothing exactly if there is neither |
| GnuHash.FindInObjects | src/infos/my_elf.c:388-405 | the first object with a symbol that answers decides, with that symbol and its own base; 0 exactly if no object has one |
| Exceptions.HandlerIsFirst | include/utils/exceptions.h:81-86 | for clauses as a list of exceptions and handlers: the handler run is that of the first clause that lists the exception, and none is run exactly if no clause lists it |
| Exceptions.TryLands | include/utils/exceptions.h:77-88 | a body that throws goes through its handler and, if that ends normally, ends as the finally block does, with the value setjmp has returned |
| Exceptions.Simulates | src/utils/exceptions.c:60-66 | in any surroundings, the machine gets where `Eval` says and leaves the stack as it was; if `Eval` runs out of fuel it has run that long |
| Exceptions.SimulatesTry | include/utils/exceptions.h:77-88 | the same from inside a try, and a try never throws |
| Exceptions.MachineIsEval | include/utils/exceptions.h:77-90 | the same for whole programs |
| Exceptions.HaltsIff | include/utils/exceptions.h:77-90 | the machine halts exactly if `Eval` has a result |
| Exceptions.StepBalanced | src/utils/exceptions.c:11-33 | every environment on the stack stands for a try to be left, at each step |
| Exceptions.DepthIsActiveTries | src/utils/exceptions.c:68-78 | the depth is the number of active tries at every moment, and delete_env never finds the stack empty |
| Exceptions.CalmIsTextbook | include/utils/exceptions.h:77-90 | where no handler throws, the macros are structured exceptions, with the first clause that lists the exception as the one that handles it |
| Exceptions.TryIsTextbookIff | include/utils/exceptions.h:77-90 | a try agrees with the textbook exactly if its handler and finally block end normally |
| Exceptions.ThrowingHandlerLoops | include/utils/exceptions.h:77-90 | a handler that throws what it handles runs for ever |
| Exceptions.CleanupRethrows | src/infos/my_elf.c:412-450 | the cleanup shape: the close always runs, the first exception is thrown on, an IOException of the close if there was none, others of the close are lost |
| EnvStack.EnvList.NewEnv | src/utils/exceptions.c:11-20 | pushes |
| EnvStack.EnvList.DeleteEnv | src/utils/exceptions.c:26-33 | pops |
| EnvStack.EnvList.ThrowException | src/utils/exceptions.c:60-66 | jumps to the top environment, which stays, or ends the debugger |
| EnvStack.EnvList.ExDepth | src/utils/exceptions.c:68-78 | the loop counts the environments |
| EnvStack.EnvList.Advance | include/utils/exceptions.h:77-90 | one step of the machine on the linked list |
| Arena.ReallocOwnsIff | src/utils/temp_memory_utils.c:62-85 | ownership is kept exactly unless the block handed out last cannot be extended |
| Arena.ReallocKeeps | src/utils/temp_memory_utils.c:62-85 | the new block begins with the old one, all other blocks are untouched, and so is a copied one |
| Arena.MallocGrants | src/utils/temp_memory_utils.c:50-60 | granted exactly if there is memory, by a new listed block of the size asked for, all other blocks as they were |
| Arena.CallocZeros | src/utils/temp_memory_utils.c:87-97 | the same for `count * size` bytes, and all of them are 0 |
| Arena.FreesEachOnce | src/utils/temp_memory_utils.c:29-48 | freeing the list frees each block once and leaves none exactly if the list owns the blocks |
| Arena.ArenaOwns | src/utils/temp_memory_utils.c:18-97 | after any successful requests each live block is listed exactly once, and freed exactly once |
| Arena.CloneAppends | src/infos/dwarf_state_machine.c:31-45 | the pointer array then holds the old rows and the new one, each in a block of its own, and the arena still owns its blocks |
| Arena.RowsStored | src/infos/dwarf_state_machine.c:225-266 | after any number of rows and the null pointer at the end, the array points to each of them in order and then to nothing, and freeing the arena frees each block once |
| Arena.TmpArena.AddPtr | src/utils/temp_memory_utils.c:18-27 | pushes a block on the list |
| Arena.TmpArena.Malloc | src/utils/temp_memory_utils.c:50-60 | is `TmpMalloc` |
| Arena.TmpArena.Calloc | src/utils/temp_memory_utils.c:87-97 | is `TmpCalloc`, and the block is all zeros |
| Arena.TmpArena.Realloc | src/utils/temp_memory_utils.c:62-85 | is `TmpRealloc`, in place only for the top of the list |
| Arena.TmpArena.FreeRec | src/utils/temp_memory_utils.c:29-41 | the recursive walk frees the rest of the list |
| Arena.TmpArena.FreeAll | src/utils/temp_memory_utils.c:43-48 | frees the list and empties it |
| Decimal.StringOrder | src/utils/format_utils.c:50 | on digit strings of one length, strcmp orders as numbers |
| Decimal.DigitsAcceptedIff | src/utils/format_utils.c:38-62 | a digit string is accepted exactly if it has at most 20 digits and is below 2^64, with its value |
| Decimal.PrintedIsRead | src/utils/format_utils.c:38-62 | printing and reading gives back every 64-bit number |
| Decimal.ReadsSpeltIff | src/utils/format_utils.c:38-62 | any string is accepted exactly if it spells a number, after blanks and a sign, with at most 20 characters in all and a magnitude below 2^64; it is read modulo 2^64, so rightly exactly without a minus sign or for zero |
| Decimal.PartsAreRead | src/utils/format_utils.c:38-62 | blanks, a sign or none and digits are read as what the digits are worth, negated modulo 2^64 after a minus sign, if there are at most 20 characters in all and that is below 2^64, and rejected otherwise |
| Decimal.SizeHasParts | src/utils/format_utils.c:38-62 | whatever is read as a size has these parts |
| Decimal.AddressIff | src/utils/format_utils.c:40-41 | left to read_address exactly if it begins with 0x or a percent sign |
| Decimal.MinusIsRead | src/utils/format_utils.c:51 | any positive number below 10^19 with a minus sign is read as its negation modulo 2^64 |

## Left out

- ptrace errors other than the one after the end of the process, waitpid itself, /proc, mmap, fork and exec: the process, the kernel and the allocator are parameters.
- Unmapped memory: a byte that the model's memory does not list reads as 0; addresses are unbounded integers, so RIP - 1 does not wrap at 0.
- Multi-threaded processes, and programs that write their own code where a breakpoint is.
- An expected SIGTRAP at the first instruction of a signal handler entered by a single step is an event of the list, not a rule of the model.
- The output that the commands print, the prompt, command-name lookup, help, and the commands that only show something.
- capstone and libunwind: next_instr and finish are a `Place` followed by `Continue` or `StepInstr`.
- The system call and register name tables.
- Transparency.Transparent: that no stop misfires and that the session is sound are conditions; StopKeepsLinkIff, PlaceKeepsPatchedIff and DeleteKeepsPatchedIff say why they are needed, and Followed and QuietSession do without the first.
- Transparency.Followed: that the program leaves patched bytes alone, also when misfires send it back onto patched addresses or past them, is a condition.
- Onlooker.ContinueStopsAtFirst: that the program leaves patched bytes alone is a condition, also, where a pending signal leads a step onto another breakpoint, for its run from behind the int3 that the step executes there.
- Locals that change between setjmp and longjmp, and are indeterminate in C unless volatile: the store of `Exceptions` survives every jump, although `my_elf` in src/infos/my_elf.c:418-437 is such a local.
- A return out of a try after a manual delete_env, as in src/mem_mappings.c:102-104.
- What follows a store outside of the watch array: the session ends there.
- LineRefinement.RunsExactly: one direction only for whole programs under the reader in the code, since a misread operand can be overwritten before a row is stored; InstrAsReadIff is the equivalence for one instruction.
- Line programs under a header with line_range 0, or with no operations per instruction in version 4: the code divides by both.
- The lengths of unknown standard opcodes: the code does not use standard_opcode_lengths, and throws.
- ELF section headers, program headers and the dynamic section: the symbol table, its names and the hash table are given as values.
- LineTable.GetNearestState: distances of 2^63 - 1 and more, which do not fit a long or look like LONG_MAX.
- Hash tables that no linker writes: the code reads past the end of a chain without an end bit.
- tmp_realloc on a block that is not in the arena, or with a wrong old size.
- tmp_strdup, read_memory and read_mem_string.
- read_address: a size that begins with 0x or % is handed to it.
