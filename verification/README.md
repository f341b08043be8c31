# Verified model of cdbg

`cdbg` is an interactive debugger for C programs: it patches trap bytes into a traced process,
single-steps it, programs hardware debug registers, reads DWARF line tables, and evaluates C
expressions. This project models its state machines and interpreters in Dafny and proves what they
promise. `dafny verify dfyconfig.toml` checks everything.

## How it is organised

- `Machine.dfy` is the debuggee: code bytes, one thread, an instruction set given as a parameter
  whose only assumed law is that an instruction's effect depends on code memory through its own
  bytes (`Local`), and a kernel that resumes the thread until a trap, a signal or an exit. The
  unpatched program is the same machine on the original image (`Next`, `Iter`).
- `Breakpoints.dfy`, `Sessions.dfy`, `Commands.dfy`, `Stepping.dfy`, `TempBreakpoints.dfy`,
  `NextLines.dfy`, `TableCommands.dfy`, `Restart.dfy`, `Debugging.dfy` and `Runs.dfy` are the breakpoint
  protocol: the overlay of trap bytes, stop and resume, `continue`, `si`, `step`, the entry stop, `next`,
  `break`, `del`, `run` again, whole sessions of them, and any number of runs with a session in each.
- `Threads.dfy` is `lock`/`unlock` and the step guard over the kernel's suspend counts.
- `Basics.dfy` has what the kernel answers (`Answers`): whether it grants its n-th request is a function
  given from outside, in the breakpoint protocol and in `Threads.dfy` alike, so every outcome is decided
  by it, and each method says whether one of the requests it made was refused (`Answered`).
- `WatchTable.dfy`, `DebugRegisters.dfy` and `HardwareWatch.dfy` are watchpoints and the x86_64 and
  arm64 debug registers.
- `Leb128.dfy`, `LineProgram.dfy`, `LineLoops.dfy`, `LineEncoder.dfy` and `LineTable.dfy` are the DWARF
  line-number program, when its parser returns, an encoder that it inverts, and the table searches.
- `Grammar.dfy` and `Evaluator.dfy` are the expression language, `OperatorLaws.dfy` and `PlaceLaws.dfy` the laws
  of what its operators compute and where its places lie, and `Bits.dfy` words bit by bit.
- `Unwind.dfy` is `up` and `tb`.
- `IndexLists.dfy` is the collect, sort and delete shared by `del` and `unwatch`.

## What holds, and what does not

The central result is transparency: under the assumptions named below, after any list of commands the
thread is at a state the unpatched program reaches by itself, later than at the prompt before, each
command having gone exactly as far as it should and told what stopped it (a breakpoint exactly when one was
trapped on, else the first watched value that has changed, which is then remembered), the tables are what the
commands made of them, and code memory is the original image with a trap byte at exactly the armed breakpoints (`Debugging.Debug`). When
no request is refused every command runs, unless the program ends in one (at the instruction named, with
nothing before it that the command would have stopped for), `step` or `next` reaches its limit, `next`
comes to a call that returns to unmapped code, or a second breakpoint is set on an address. Run again and
again, each run begins with the breakpoints the one before it left (`Runs.DebugRuns`). Assumptions about the program, each a named predicate:
breakpoints start instructions (`AlwaysAligned`), execution never arrives one byte past a breakpoint
(`NeverJustAfter`), a return address is entered at its start (`OnlyThrough`). In the breakpoint protocol
register access, ptrace requests and waits may be refused at any call, and code memory can be read and
written where it is mapped. In `Threads.dfy` listing, suspending and resuming threads and reading
registers may be refused at any call. In `HardwareWatch.dfy` the debug registers of every live thread can
be read and written.

Promises that turned out false of the code are stated with the exact condition under which they hold,
and with an input on which they do not:

- When a register access is refused after a trap, the prompt comes all the same, with the thread one past
  the breakpoint, at no state of the program (`Commands.UnreportedIsLostIff`,
  `Commands.RefusedReportIsLost`).
- `continue`, when the program comes to no armed breakpoint and is stopped one byte past one, takes the
  stop for a hit (`Commands.ContinueExactIff`, `Commands.ContinueRunsAgain`).
- `si` and `step` on a breakpoint at a one-byte instruction take the arrival at the next byte for a hit
  and rewind, so the instruction runs again (`Commands.SiExactIff`, `Stepping.StepExactIff`,
  `Commands.OneByteInstructionRunsAgain`).
- A breakpoint on an instruction that leaves the pc in place is not re-armed by `continue`, which then
  passes it again (`Sessions.UnarmedIffStays`, `Commands.PassedAgainIff`, `Commands.SelfJumpRunsOn`).
- A user breakpoint the program reaches before its entry stop is hit but never rewound; the thread is
  left at no state of the program (`TempBreakpoints.RunToEntry`, `TempBreakpoints.EntryStopLost`).
- `next` reports a breakpoint hit inside a call and then goes on, unless a watched value has changed or
  the breakpoint is on another known line (`NextLines.PassesHitIff`, `NextLines.NextPassesBreakpoint`).
- `next` over a recursive call stops at the first return to the place, which may be a deeper frame's
  (`NextLines.SameFrameIff`, `NextLines.NextStopsDeeper`).
- `break` on an address that already has a breakpoint loses the original byte (`TableCommands.Break`,
  `Breakpoints.DuplicateBreakpointsCorrupt`).
- A breakpoint given as a number taken for an address does not follow the program to a new load
  address, and another one may move onto it (`Restart.RestartKeepsIff`, `Restart.ClashIff`,
  `Restart.RestartClashes`).
- Deleting a watchpoint that is not the last leaves the old last slot programmed
  (`HardwareWatch.Watcher.DeleteAt`, `HardwareWatch.StaleSlot`).
- `lock` is not rolled back when only its final register read fails, and a thread whose resume is
  refused stays suspended for good (`Threads.Process.Lock`, `Threads.StuckIff`, `Threads.LockFails`).
- The guard that suspends the other threads during a step keeps the places of threads that have exited; once
  its 64 places are taken a new thread runs through the step (`Threads.RunsIff`, `Threads.GuardFills`).
- An extended opcode's length can send the line-program parser backwards, or round for ever
  (`LineLoops.StepAdvancesIff`, `LineLoops.NeverReturnsIff`, `LineLoops.LoopingNeverReturns`).
- An unhandled standard opcode's operands are skipped as bytes (`LineEncoder.SkipIff`,
  `LineEncoder.SkipLandsInside`), and the parser's 8-bit cast bends a special opcode whose line operand
  exceeds 127 (`LineEncoder.SpecialCastIff`).
- `*a` does not decay an array, `*p` in arithmetic reads eight bytes whatever `p` points at, and
  dereferencing anything but a variable forgets its type (`Evaluator.ArrayDerefIff`,
  `Evaluator.DerefWidthIff`, `Evaluator.ArrowDerefIff`, `Evaluator.SampleDiffers`).
- Only one level of pointers is ever taken off a type, so the elements of an `int **` lie four bytes apart
  (`PlaceLaws.PointeeOfPointerIff`, `PlaceLaws.ElementTypeIff`, `PlaceLaws.PointersTooClose`).
- `tb` leaves out the caller when the pc is at `push %rbp` (`Unwind.TraceSkipsCaller`); `up` misses it when the
  pc is right after that push (`Unwind.UpMissesCaller`, `Unwind.UpPassesCaller`).

## Model

| member | source | states |
|---|---|---|
| Machine.ResumeIsBare | src/debugger.c:544-572 | a resumed patched program follows the unpatched one up to the first patched address it reaches, and stops there |
| Machine.PatchedExecute | src/breakpoint.c:15-34 | off the patched addresses an instruction has its original effect |
| Machine.HitStops | src/debugger.c:544-572 | a run allowed enough instructions stops on the first patched address it arrives at |
| Machine.StopHits | src/debugger.c:544-572 | any stop is such a hit, or the state the program is in at its limit or after its first trap instruction of its own, over no patched address |
| Machine.ExitEnds | src/debugger.c:505-521 | a run that exits is of a program that ends within it, having met no patched address and executed no trap of its own |
| Breakpoints.EnableKeepsOverlay | src/breakpoint.c:15-34 | arming a disabled breakpoint saves the original byte and keeps memory the overlay |
| Breakpoints.DisableKeepsOverlay | src/breakpoint.c:36-48 | disabling one restores its byte and keeps memory the overlay of the others |
| Breakpoints.TempOn | src/debugger.c:626-631 | a temporary breakpoint laid over user breakpoints saves what lay there, trap bytes included |
| Breakpoints.TempOff | src/debugger.c:600-615 | removing it restores the overlay of the user breakpoints alone |
| Breakpoints.UnderneathStable | src/debugger.c:483-503 | re-arming user breakpoints meanwhile does not change what lies under a temporary one |
| Breakpoints.EmptyOverlay | src/debugger.c:4826-4834 | with no breakpoints, memory is the overlay exactly when it is the original image |
| Breakpoints.BreakSavesOriginalIff | src/debugger.c:4947-4951 | the saved byte is the original one exactly when no armed breakpoint has the address, or the program has a trap byte there |
| Breakpoints.DuplicateBreakpointsCorrupt | src/debugger.c:4947-4951 | two breakpoints on one address, removed oldest first, leave the trap byte in the program |
| Sessions.Arrive | src/debugger.c:505-521 | a stopped thread is at a bare state, or one past an armed address it has just trapped at |
| Sessions.Settle | src/debugger.c:483-503 | a thread that stopped one past no breakpoint without trapping matches one exactly when it trapped on it, and then none is left disabled |
| Sessions.SkipsNone | src/debugger.c:523-561 | stepping off a disabled breakpoint and running on passes no other breakpoint |
| Sessions.UnarmedIffStays | src/debugger.c:483-503 | a breakpoint stepped off stays unarmed exactly when its instruction left the pc in place |
| Sessions.StepOff | src/debugger.c:523-542 | the single step off a disabled breakpoint is the one original instruction |
| Sessions.Session.EnableAt | src/debugger.c:494-501 | arms one table entry, keeping the overlay |
| Sessions.Session.DisableAt | src/breakpoint.c:36-48 | disarms one table entry, keeping the overlay |
| Sessions.Session.FindTrap | src/breakpoint.c:62-70 | finds a breakpoint whose trap was executed, or there is none |
| Sessions.Session.FindDisabledAt | src/debugger.c:472-481 | tells whether a disabled breakpoint sits at the pc |
| Sessions.Session.ReenableAfterStep | src/debugger.c:483-503 | arms every breakpoint but a disabled one at the pc |
| Sessions.Session.Wait | src/debugger.c:505-521 | takes the thread where the kernel left it and re-arms, or reports the exit; fails only on a refused request |
| Sessions.Session.StepOverDisabled | src/debugger.c:523-542 | takes exactly one bare instruction when a disabled breakpoint is at the pc, and none otherwise; the process ends only in that instruction; fails only on a refused request |
| Sessions.Session.ContinueProcess | src/debugger.c:544-561 | steps off first if needed, then resumes; an exit during the step is returned as such; fails only on a refused request |
| Sessions.Session.FindWatchpointHit | src/debugger.c:1418-1438 | the first watchpoint whose value differs from the remembered one |
| Sessions.Session.ReportWatchpoint | src/debugger.c:1440-1457 | remembers the reported value, touching no other watchpoint |
| Sessions.Session.HandleBreakpointHit | src/debugger.c:1387-1410 | disarms the breakpoint hit and rewinds the pc onto it; refused a register access, it has disarmed without rewinding |
| Sessions.Session.ReportStop | src/debugger.c:1537-1566 | handles a trap on a breakpoint before anything else, then reports and remembers the first changed watchpoint; the report explains the stop; a settled thread ends at its bare state; refused a request, it moves nothing and remembers nothing |
| Sessions.RememberedIsQuiet | src/debugger.c:1440-1457 | a value once reported does not count as changed until its memory is altered again |
| Commands.AwaitStop | src/debugger.c:5257-5269 | the wait and report of a command end at a bare state with no breakpoint skipped, the report telling what stopped it; it fails only on a refused request |
| Commands.Conclude | src/debugger.c:5264-5266 | the report that ends a command is a breakpoint hit exactly when the stop is one past a breakpoint, which is then disarmed and taken back onto; else it is the first changed watchpoint, remembered, or plain; a refused one moves nothing and remembers nothing |
| Commands.ContinueCommand | src/debugger.c:5244-5270 | continue ends at the first armed breakpoint the program comes to, at the stop the kernel was asked for, or after a trap of the program's own; the process has ended exactly when the program does so within what it was allowed, coming to no breakpoint and executing no trap of its own; it is fatal exactly for a refused request or a process that ends while stepping off, and a refused report leaves the thread where it stopped; what it reports, and the tables it leaves, are those of the stop |
| Commands.ContinueExactIff | src/debugger.c:5244-5270 | the prompt after continue is at the state where the program stopped unless the program, allowed what it was, comes to no armed breakpoint and is then one past one; after a refused report, exactly when it comes to none |
| Commands.PassedAgainIff | src/debugger.c:494-501 | the breakpoint continue started on is passed again exactly when its instruction leaves the pc in place |
| Commands.UnreportedIsLostIff | src/debugger.c:1387-1410 | at the prompt after a refused report the thread is at a state of the program exactly when it has not trapped |
| Commands.RefusedReportIsLost | src/debugger.c:5264-5266 | a program on which a refused report leaves the thread at no state of the program |
| Commands.FreeRun | src/debugger.c:544-561 | after stepping off, a free run traps on the first armed breakpoint it comes to within what the kernel allows, or comes to none and stops at its limit or after a trap of the program's own |
| Commands.GoesToOne | src/debugger.c:544-561 | a program that is stopped, coming to no breakpoint, is stopped at one state only, and comes to none |
| Commands.ComesToOnce | src/debugger.c:544-561 | a program that comes to an armed breakpoint does so at one state only |
| Commands.EndsByOne | src/debugger.c:505-561 | a program that ends first does so at one instruction only, and neither of the other two happens: the program and its limit decide which of the three it is |
| Commands.StepResumes | src/debugger.c:563-572 | a single step on patched code traps at an armed address and is the bare instruction elsewhere |
| Commands.StepSettles | src/debugger.c:1200-1218 | after a single step a breakpoint matches exactly when the step started on an armed one |
| Commands.SiCommand | src/debugger.c:5293-5326 | si ends exactly at the stated state, false hits included, and keeps the overlay; it is fatal only on a refused request, and a refused report leaves the raw step; it reports a breakpoint hit exactly when it ends one past a breakpoint |
| Commands.StepAndReport | src/debugger.c:5309-5325 | one instruction and its report, told as for si |
| Commands.SiExactIff | src/breakpoint.c:50-60 | si executes exactly one instruction if and only if it does not end one byte past a breakpoint |
| Commands.OneByteInstructionRunsAgain | src/breakpoint.c:50-60 | a one-byte push under a breakpoint is executed again by every si |
| Commands.ContinueRunsAgain | src/breakpoint.c:50-60 | a push under a breakpoint, continued from and stopped after, is taken back and will be executed again |
| Commands.SelfJumpRunsOn | src/debugger.c:494-501 | on a jump to itself continue never stops at the breakpoint again, where an armed one would stop at once |
| Stepping.Advance | src/debugger.c:1197-1215 | a single step of the loop is one bare step and re-arms the breakpoint it left |
| Stepping.StepNextLine | src/debugger.c:1170-1251 | step stops at the earliest step where a breakpoint matches, a watched value differs or the line changes, within 100000 steps, with no assumption on one-byte instructions; the process has ended only if the program does so before any of them; it fails only on a refused request; a changed watchpoint it ends for is the first such and its value is remembered, and every other ending leaves the watchpoints alone |
| Stepping.StepLoop | src/debugger.c:1193-1251 | the same for the loop, the line it starts on known |
| Stepping.StepExactIff | src/breakpoint.c:50-60 | step ends at the state its instructions lead to, whatever it was that stopped it, exactly when the last of them did not end one past a breakpoint |
| Stepping.LookAround | src/debugger.c:1214-1243 | after each step a trap comes first, then the first changed watched value, which is remembered, then the line; nothing else touches the watchpoints |
| Stepping.StepMovesOn | src/debugger.c:1223-1227 | a step right after one that ended for a watchpoint does not end for it again unless its memory is altered |
| Stepping.StepAndLook | src/debugger.c:1197-1243 | one iteration: a trap on the breakpoint it stands on, or one bare step, taken for a trap exactly when it ends one past a breakpoint |
| Stepping.StepBlind | src/debugger.c:1179-1191 | with no line known it does what si does, and ignores a refused report |
| TempBreakpoints.TempRun | src/debugger.c:626-651 | a run with a temporary breakpoint stops at its first arrival there or for an ordinary reason, skipping no user breakpoint |
| TempBreakpoints.TempHit | src/debugger.c:607-615 | a stop one past the temporary breakpoint is a trap at it, with every user breakpoint armed |
| TempBreakpoints.SetTemp | src/breakpoint.c:15-34 | sets a record that undoes itself exactly, or fails and changes nothing |
| TempBreakpoints.DropTemp | src/breakpoint.c:36-48 | restores the overlay of the user breakpoints |
| TempBreakpoints.FinishTemp | src/debugger.c:600-624 | removes the temporary breakpoint on every path and leaves the thread at the bare state |
| TempBreakpoints.StepOverCall | src/debugger.c:626-651 | a call is run to the first arrival at its return address or to another stop, which is reported as it is; the process has ended only if the program does so before either; it fails exactly for a refused request or an unmapped return address; the overlay is restored on every path |
| TempBreakpoints.RunToEntry | src/debugger.c:258-310 | it ends at the entry exactly when the program gets there first within the run; a stop elsewhere is a state of the program if and only if it did not reach a user breakpoint first; the process has ended only if the program does so before either; it fails exactly for a refused request or an unmapped entry, the thread then not having moved or standing where the run stopped; the overlay is restored on every path |
| TempBreakpoints.LeaveEntry | src/debugger.c:289-309 | after the run the temporary breakpoint goes and only a trap on it is rewound |
| TempBreakpoints.EntryRun | src/debugger.c:258-310 | which address the program reaches first decides where the run stops |
| TempBreakpoints.EntryStopLost | src/debugger.c:303-310 | a program on which the entry stop loses the thread |
| NextLines.NextAdvance | src/debugger.c:1280-1304 | an iteration is one instruction, or a direct call run to its return address or to another stop inside, passing no armed breakpoint; or the program ends in it, before any of these; it fails exactly for a refused request or a return address that is not mapped |
| NextLines.OverCall | src/debugger.c:1283-1290 | an iteration at a direct call, up to the first arrival at its return address |
| NextLines.OneStep | src/debugger.c:1291-1303 | any other iteration is one instruction, or a trap on the armed breakpoint it stands on |
| NextLines.NextAndLook | src/debugger.c:1276-1335 | after it: trap, watched values and line are looked at in that order, the first changed value being remembered |
| NextLines.PassesHitIff | src/debugger.c:600-624 | a breakpoint hit inside the call is passed exactly when no watched value changed and it is on no other known line |
| NextLines.SameFrameIff | src/debugger.c:626-651 | a call gone over ends in the frame it was made from exactly when no deeper frame returns to the same address first |
| NextLines.NextLoop | src/debugger.c:1276-1340 | the loop: the journey so far and that there was nothing to stop for in it, also when the program ends in the next iteration or a request is refused |
| NextLines.NextSourceLine | src/debugger.c:1253-1345 | next ends after the first iteration with something to stop for, at an armed breakpoint it stands on, or after 100000 iterations, at a bare state with the overlay restored; or the program ends in an iteration, with nothing to stop for before; it fails only on a refused request or on coming to a call that returns to unmapped code; the watchpoints are left as the last look and the reports inside calls leave them |
| NextLines.NextPassesBreakpoint | src/debugger.c:600-624 | a program on which next runs past a user breakpoint it has hit |
| NextLines.NextStopsDeeper | src/debugger.c:626-651 | a recursive program, one that meets every assumption of next, on which it stops in a deeper frame |
| TableCommands.Break | src/debugger.c:4942-4956 | appends the record, fails on a full table or unmapped address; the overlay is kept if and only if the address is new |
| TableCommands.DeleteAt | src/debugger.c:4784-4806 | removes exactly one entry and its trap byte |
| TableCommands.DeleteCommand | src/debugger.c:4808-4883 | exactly the named entries go, in any order with repeats; with one bad number nothing changes |
| TableCommands.DeleteAll | src/debugger.c:4826-4834 | code memory becomes the original image |
| IndexLists.WithoutRemove | src/debugger.c:4800-4803 | deleting below all earlier deletions removes the entry that had that index |
| IndexLists.WithoutKeeps | src/debugger.c:4876-4881 | an entry survives exactly when its index is not named |
| IndexLists.Pigeonhole | src/debugger.c:4836-4863 | distinct valid indices never overflow the index buffer |
| IndexLists.Collect | src/debugger.c:4841-4864 | collects the numbers without repeats; fails exactly when one names no entry |
| IndexLists.SortDescending | src/debugger.c:4866-4874 | sorts in place, descending, keeping the same indices |
| WatchTable.ChangedIff | src/debugger.c:1418-1438 | a watchpoint that remembers what was there fires exactly when its bytes can be read and one has become another |
| WatchTable.NotedChangesIff | src/debugger.c:1440-1457 | the same of a watchpoint that has been reported |
| Restart.RestartKeepsIff | src/debugger.c:4885-4940 | a spec resolves to the same link address after a reload if and only if it names a place in the program or the slide is unchanged |
| Restart.ResolveBreak | src/debugger.c:4885-4940 | the address break resolves each kind of argument to, through the table searches |
| Restart.FindSymbolLaw | src/syms.c:355-374 | a symbol is the first entry of its name with the underscore, given with or without it |
| Restart.SymbolLaw | src/debugger.c:4924-4938 | a symbol resolves exactly when it is defined, to the nearest following address that begins another line of its file, or else to its own |
| Restart.NewAddress | src/debugger.c:4885-4940 | a place in the program moves with it, a number taken for an address stays |
| Restart.ClashIff | src/debugger.c:401-403 | re-inserted breakpoints clash exactly when a place in the program has moved onto a mapped number |
| Restart.RestartClashes | src/debugger.c:401-403 | a program of one line whose breakpoint moves onto another one, which saves its trap byte |
| Restart.LookupShifts | src/lineno.c:1133-1146 | the address search finds the same entry at every slide |
| Restart.NextLineShifts | src/lineno.c:1320-1344 | the next-line search finds the same entry at every slide |
| Restart.ReinsertedOrder | src/debugger.c:361-403 | the specs that still resolve to mapped code come back in their order, armed at their new addresses |
| Restart.ReinsertedSoundIff | src/debugger.c:401-403 | every re-inserted record saves the program's own byte, on an address of its own, exactly when no two clash |
| Restart.RestartMoves | src/debugger.c:356-403 | a table of places in the program comes back whole: same specs, same order, same link addresses, no clash |
| Restart.Rerun | src/debugger.c:334-403 | after run both tables are cleared and the saved specs set again over fresh code; the overlay holds exactly when none clash |
| Restart.RunAgain | src/debugger.c:334-403 | on a table of places in the program, run keeps every breakpoint at its link address and the session whole |
| Debugging.Debug | src/debugger.c:5378-5415 | after any list of commands the thread is at a bare state no earlier than before, each command having gone exactly as far as it should and told what stopped it, the tables are what the commands made of them, and memory is their overlay; it stops short only when a request is refused, the program ends in a command that would not have stopped before, step or next gives up, next comes to an unmapped return address, or a breakpoint is set twice; after a trap left unreported the thread is at no state of the program |
| Debugging.GoOn | src/debugger.c:5244-5270 | continue from a prompt: to the next prompt, refused, lost, or over, the program having ended within what it was allowed and before any armed breakpoint |
| Debugging.OneInstruction | src/debugger.c:5293-5326 | si from a prompt: exactly one instruction, or none on an armed breakpoint; over when the program ends at that instruction |
| Debugging.OneLine | src/debugger.c:5272-5291 | step from a prompt, its limit being fatal; over when the program ends before anything step would stop for |
| Debugging.OverLine | src/debugger.c:5328-5347 | next from a prompt, its limit being fatal; over when the program ends before anything next would stop for |
| Debugging.Editing | src/debugger.c:4942-4956 | break, del, watch and unwatch make the stated tables, and keep the promises exactly unless a second breakpoint is set on an address |
| Debugging.DebugAndDetach | src/debugger.c:4826-4834 | ending with del all leaves the program's code as it was and its state one it reaches by itself, after every command |
| Runs.Restarted | src/debugger.c:334-403 | the breakpoints the last run left are set again over fresh code, and the session is whole exactly when no two come together |
| Runs.ElsewhereIff | src/debugger.c:303-310 | a thread stopped elsewhere than at the entry is at a state of the program exactly when it is one past no breakpoint |
| Runs.Enter | src/debugger.c:258-310 | the first prompt of a run is at the entry, or where the program was stopped having come neither there nor to a breakpoint; else a request was refused, the program ended first, or the thread is lost |
| Runs.RunOnce | src/debugger.c:334-424 | run and the commands after it go as one session does |
| Runs.DebugRuns | src/debugger.c:5378-5415 | however often the program is run again, every run begins with the breakpoints the one before it left, set again, and goes as one session does; only a refused request or a command that gave up ends the debugger |
| Threads.OthersAre | src/debugger.c:3720-3731 | the threads lock suspends are those listed other than its target |
| Threads.CaughtUp | src/debugger.c:1088-1124 | catching up takes only new threads, each once, never the first or current one |
| Threads.LeftOutIff | src/debugger.c:1088-1124 | a new thread is left out exactly when the guard is full at its turn or its own suspension is refused |
| Threads.RunsIff | src/debugger.c:1088-1124 | whenever the program runs during a step with no lock active, a listed thread that is neither first nor current is not suspended exactly when its own suspension was refused, or the guard was full at its turn |
| Threads.NoneRuns | src/debugger.c:1193-1198 | with every request granted and room in the guard, no other listed thread runs during a step |
| Threads.GuardFills | src/debugger.c:1100-1123 | a guard full of exited threads takes no new one |
| Threads.Process.CatchUp | src/debugger.c:1088-1124 | holds afterwards exactly what the kernel's answers let it take; does nothing under a lock |
| Threads.Process.EndGuard | src/debugger.c:1163-1168 | lets go of every thread held, but for the live ones whose resume the kernel refuses |
| Threads.StuckIff | src/regs.c:100-122 | a thread held once stays suspended after the resumes exactly when it lives and its own resume is refused |
| Threads.LeftBounded | src/regs.c:100-122 | no more threads get stuck than requests are refused, and none gets unstuck |
| Threads.BoundedEach | src/regs.c:100-122 | so with every request granted none gets stuck, and no thread more often than requests are refused |
| Threads.Process.Lock | src/debugger.c:3686-3745 | the first refused suspension decides: none, and every other listed thread is suspended once, whatever the final register read says; else those before it are resumed |
| Threads.LockFails | src/debugger.c:3723-3733 | answers on which lock fails and leaves a thread suspended |
| Threads.Process.Unlock | src/debugger.c:3747-3770 | every recorded live thread is resumed, or stays suspended if refused; the error tells exactly that some recorded thread is gone or was refused |
| Threads.Process.StepCommand | src/debugger.c:1193-1250 | at every run of the program the guard was in place, over the threads then listed, one run an iteration; the guard is balanced however the loop ends; a thread stays suspended exactly when the guard held it, it lives, and its resume was refused |
| Threads.Process.StepOne | src/debugger.c:5293-5326 | si: the same around its one instruction |
| Threads.Process.Execute | src/debugger.c:5378-5415 | after any commands a live thread is suspended once if an active lock recorded it, and more often only for resumes refused, of which there are no more than refused requests: with none refused, exactly the lock's threads; from each prompt to the next the counts change as the command given says |
| DebugRegisters.Dr7Frame | src/watchpoint.c:181-185 | programming or clearing a slot leaves all other bits of DR7 |
| DebugRegisters.SetDr7Own | src/watchpoint.c:176-185 | the slot's own fields read back |
| DebugRegisters.Dr7Values | src/watchpoint.c:174-185 | the values of DR7 for slots 0 and 3 |
| DebugRegisters.ArmSelects | src/watchpoint.c:114-126 | the WVR and BAS pair selects exactly the watched bytes |
| DebugRegisters.ArmWatchableIff | src/watchpoint.c:108-126 | a range is representable on arm64 exactly when some setting of a slot watches those bytes |
| DebugRegisters.ControlValues | src/watchpoint.c:57-63 | two values of the control word |
| DebugRegisters.InstallWatches | src/watchpoint.c:162-189 | a programmed slot decodes to the watchpoint's bytes and mode, on both architectures |
| DebugRegisters.InstallKeepsOthers | src/watchpoint.c:162-189 | programming a slot is invisible to every other one |
| DebugRegisters.UninstallKeepsOthers | src/watchpoint.c:191-207 | clearing a slot disarms it, invisibly to every other one |
| HardwareWatch.Watcher.HwInstall | src/watchpoint.c:209-231 | every thread gets the slot, or the range is refused and nothing changes |
| HardwareWatch.Watcher.Resync | src/debugger.c:1501-1510 | afterwards every thread's registers decode to the table, new threads included |
| HardwareWatch.Watcher.DeleteAt | src/debugger.c:4973-4996 | the table loses one entry and the registers follow; the old last slot is cleared only if it was the one deleted |
| HardwareWatch.StaleSlot | src/debugger.c:4973-4996 | two watchpoints deleted in turn, and the thread still traps on the second |
| HardwareWatch.RoundedWidth | src/debugger.c:4962-4971 | the least width not below the size asked for, 8 for none or more |
| HardwareWatch.Watcher.UnwatchCommand | src/debugger.c:4998-5073 | the table loses exactly the named entries and agreement is kept |
| HardwareWatch.Watcher.WatchCommand | src/debugger.c:5119-5216 | the table gains the watchpoint, with the explicit width or the widest representable one within the rounded size, and the value there; agreement is kept |
| HardwareWatch.FitWidthIs | src/debugger.c:5177-5184 | halving finds the widest representable width |
| HardwareWatch.Watcher.InstallWidest | src/debugger.c:5167-5190 | every thread is programmed with that width, or the explicit one is refused and nothing changes |
| HardwareWatch.Watcher.Execute | src/debugger.c:1492-1510 | over any watches, unwatches and new threads, the table is what the commands make of it one after another, and at every prompt the registers of every thread decode to it |
| Leb128.UlebRoundTrip | src/lineno.c:141-154 | every padding up to ten bytes of a 64-bit value reads back as it, cursor right after |
| Leb128.SlebRoundTrip | src/lineno.c:156-173 | every sign-padded encoding up to ten bytes of a signed 64-bit value reads back as it |
| Leb128.TenBytesSuffice | src/lineno.c:145-152 | every value has an encoding the reader takes |
| Leb128.Cursor.ReadUleb128 | src/lineno.c:141-154 | the shifting loop computes the wrapped digit sum and moves the cursor past the digits read |
| Leb128.Cursor.ReadSleb128 | src/lineno.c:156-173 | the same, sign-extended when fewer than 64 bits were read |
| Leb128.Cursor.ReadLittle | src/lineno.c:132-139 | little-endian value of the bytes, the cursor stopping at the end |
| LineLoops.StepAdvancesIff | src/lineno.c:620-693 | an iteration that does not fail moves the cursor forward exactly when it is no extended opcode whose end wraps by at least its own bytes |
| LineLoops.NeverReturnsIff | src/lineno.c:620-693 | the parser never returns exactly when it is still going on after as many iterations as there are bytes |
| LineLoops.ForwardReturns | src/lineno.c:620-693 | data in which no opcode turns back is parsed within that many iterations |
| LineLoops.LoopingNeverReturns | src/lineno.c:622-626 | eleven bytes from which the parser never returns, wherever they are loaded |
| LineProgram.LineNumbers.EmitRow | src/lineno.c:375-404 | appends the row of the registers, or nothing for a line below 1 or an unknown file |
| LineProgram.PathLaw | src/lineno.c:353-373 | a file has a path exactly when it is in the table and not file 0: its name, after its directory and a slash if that has a name |
| LineProgram.RowLaw | src/lineno.c:375-404 | one row for a line of a known file and none else, its fields those of the registers |
| LineProgram.LineNumbers.ParseLineProgram | src/lineno.c:603-696 | for any number of iterations on any bytes, rows and ending are those of the specified state machine |
| LineProgram.LineNumbers.ParseExtended | src/lineno.c:622-648 | an extended opcode, its 64-bit length added to the cursor with wrap-around whatever it contains |
| LineProgram.LineNumbers.ParseOne | src/lineno.c:620-693 | one iteration of the loop is one step of the specification |
| LineProgram.LineNumbers.ParseStandard | src/lineno.c:651-684 | a standard opcode, unhandled ones skipped by their byte count |
| LineEncoder.StepEncoded | src/lineno.c:620-693 | the interpreter's step on an instruction's bytes is that instruction as the standard defines it, however its operands are padded |
| LineEncoder.ParseEncoded | src/lineno.c:603-696 | interpreting an encoded program is running its instructions |
| LineEncoder.LineProgramRoundTrip | src/lineno.c:603-696 | any rows in any sequences, encoded and interpreted, come back in order, each sequence followed by the row of its end_sequence |
| LineEncoder.RowEncodes | src/lineno.c:687-692 | the instructions chosen for a row emit exactly that row |
| LineEncoder.SpecialIsThreeOps | src/lineno.c:687-692 | a special opcode is advance_line, advance_pc and copy |
| LineEncoder.SpecialCastIff | src/lineno.c:689-690 | the cast keeps the standard's meaning exactly when the line operand is at most 127 |
| LineEncoder.ConstAddPcIs255 | src/lineno.c:670-672 | const_add_pc moves the address as special opcode 255 does |
| LineEncoder.SkipIff | src/lineno.c:678-682 | the byte skip lands after an unhandled opcode's operands exactly when each takes a single byte |
| LineEncoder.SkipLandsInside | src/lineno.c:678-682 | two two-byte operands, and the skip lands on the second |
| LineTable.LookupIff | src/lineno.c:1133-1146 | the scan finds an entry exactly when it is the first with the greatest address not above the pc |
| LineTable.LookupPc | src/lineno.c:1133-1146 | the loop is that scan |
| LineTable.EntryAtPc | src/lineno.c:1284-1305 | the covering entry is returned exactly when it has a line and reaches the pc within 128 without wrapping; narrowing never rejects |
| LineTable.LineScanLeast | src/lineno.c:1148-1168 | the first matching entry of least address |
| LineTable.FileMatchesIff | src/lineno.c:1148-1168 | a filter matches a file exactly when it occurs in its name |
| LineTable.LookupLine | src/lineno.c:1148-1168 | the loop is that scan |
| LineTable.LookupLineUnique | src/lineno.c:1170-1195 | the least-address entry of the line, none when two files have it |
| LineTable.NextScanLeast | src/lineno.c:1328-1341 | the first entry of least address after the pc on another line of the same file |
| LineTable.LookupNextLineAfterPc | src/lineno.c:1320-1344 | the loop is that scan from the covering entry |
| Grammar.ParseIff | src/ast_expr.y:45-95 | a token string parses to a derivation exactly when that derivation respects the precedences and has those tokens |
| Grammar.PrecedenceIff | src/ast_expr.y:45-54 | `a o1 b o2 c` is parsed with o1 first if and only if o1 is in the class of o2 or one declared after it, the ten classes written out; else with o2 first |
| Grammar.UnaryBeforeBinary | src/ast_expr.y:55-55 | a sign takes its operand before any binary operator on either side |
| Grammar.PostfixBeforeUnary | src/ast_expr.y:55-56 | member, arrow and index are taken before a sign in front |
| Grammar.ParenthesesBind | src/ast_expr.y:91-91 | parentheses decide the grouping of any two operators |
| Grammar.ProperIsParsed | src/ast_expr.y:45-95 | every derivation respecting precedence and left associativity is found |
| Grammar.WantSound | src/ast_expr.y:63-95 | whatever is parsed is such a derivation of exactly the tokens consumed |
| Grammar.Unambiguous | src/ast_expr.y:45-56 | two such derivations with the same tokens are equal |
| Grammar.PrintRoundTrip | src/ast_expr.y:63-118 | parsing the minimal print of an expression gives it back |
| Grammar.MinimalIsLeast | src/ast_expr.y:91-91 | no way of writing the expression has fewer parentheses |
| Grammar.RedundantParens | src/ast_expr.y:91-91 | redundant parentheses change nothing |
| Evaluator.EvalReadsPlace | src/ast_eval.c:81-351 | an lvalue-shaped expression evaluates exactly when it resolves and its place can be read, to what is there |
| Evaluator.UnresolvedFails | src/debugger.c:3113-3122 | one that does not resolve does not evaluate either |
| Evaluator.DerefWidthIff | src/ast_eval.c:322-332 | a dereference reads the same as a place and as a value exactly when the pointee is eight bytes wide, unreadable, or followed by zeros |
| Evaluator.DerefOfAddress | src/ast_eval.c:187-215 | the dereference of an address is the place itself, untyped |
| Evaluator.ArrowIsDerefMember | src/ast_eval.c:96-138 | for a pointer variable the arrow is dereference and member |
| Evaluator.IndexZeroIsDeref | src/ast_eval.c:140-215 | for a non-array pointer variable index zero is dereference |
| Evaluator.ArrayDerefIff | src/ast_eval.c:153-215 | an array's dereference is its first element exactly when its leading bytes hold its own address |
| Evaluator.ArrowDerefIff | src/ast_eval.c:96-215 | arrow and member of the dereference resolve alike exactly for a variable, an unreadable pointer, or a member that no struct type distinguishes |
| Evaluator.SampleDiffers | src/ast_eval.c:187-215 | an int pointer and a list node on which the two readings and the two lookups differ |
| OperatorLaws.BinaryFailsIff | src/ast_eval.c:252-268 | a binary expression fails exactly with an operand or on division or remainder by zero |
| OperatorLaws.SumsUndo | src/ast_eval.c:12-13 | adding and subtracting the same undo each other |
| OperatorLaws.SumsAreIntegers | src/ast_eval.c:12-14 | sum, difference and product are those of the integers modulo 2^64 |
| OperatorLaws.DivisionLaw | src/ast_eval.c:15-28 | quotient times divisor plus remainder is the dividend, the remainder below the divisor |
| OperatorLaws.ComparisonLaw | src/ast_eval.c:31-36 | comparisons give 1 or 0 and order values as unsigned words |
| OperatorLaws.Trichotomy | src/ast_eval.c:31-35 | exactly one of less, equal and greater holds |
| OperatorLaws.TruthLaw | src/ast_eval.c:40-41 | connectives and `!` go by whether values are zero |
| OperatorLaws.ShiftLeftLaw | src/ast_eval.c:29-29 | a left shift by k below 64 multiplies by 2^k modulo 2^64 |
| OperatorLaws.ShiftRightLaw | src/ast_eval.c:30-30 | a right shift by k below 64 divides by 2^k |
| OperatorLaws.BitLaw | src/ast_eval.c:37-39 | and, or and exclusive or go bit by bit |
| OperatorLaws.DeMorgan | src/ast_eval.c:37-39 | the complement of a conjunction is the disjunction of the complements, and the reverse |
| OperatorLaws.XorUndoes | src/ast_eval.c:38-38 | exclusive or with the same twice gives the value back |
| OperatorLaws.UnaryLaw | src/ast_eval.c:270-310 | on integers `-x + x` is 0, `~x` is `-x - 1`, `~~x` is x and `+x` is x |
| OperatorLaws.FloatLaw | src/ast_eval.c:262-290 | a binary expression is floating-point as its left operand is; a floating-point number is negated as one |
| PlaceLaws.VariableLaw | src/ast_eval.c:239-252 | a variable evaluates exactly when its bytes can be read, to the word they make |
| PlaceLaws.PointeeOfPointerIff | src/ast_eval.c:47-64 | a pointer to a type points at that type exactly when it is no pointer itself |
| PlaceLaws.IndexResolvesIff | src/ast_eval.c:140-185 | indexing resolves exactly within an array or through a readable pointer |
| PlaceLaws.FirstElement | src/ast_eval.c:153-184 | the first element is at the array or where the pointer points, with the element type and size |
| PlaceLaws.ElementsApart | src/ast_eval.c:153-184 | an element has one before it, of its type, and their addresses differ by the size of an element |
| PlaceLaws.ElementTypeIff | src/debugger.c:2951-2970 | through a pointer an element has the type pointed at exactly when that is no pointer |
| PlaceLaws.MemberLaw | src/ast_eval.c:96-138 | a member resolves exactly when the type has it, at its offset, with its type and size |
| PlaceLaws.ArrowLaw | src/ast_eval.c:96-138 | an arrow resolves exactly through a readable pointer to a type that has the member, at its offset from where it points |
| PlaceLaws.PointersTooClose | src/debugger.c:2951-2970 | the elements of an `int **` lie four bytes apart |
| Unwind.Registers.FrameUp | src/regs.c:265-303 | moves the registers to the caller as specified, or leaves them |
| Unwind.UpUndoesCallIff | src/regs.c:274-280 | at the push that begins a function up gives the caller back, pc, fp and sp, unless it returns into the first page |
| Unwind.UpUndoesEntryIff | src/regs.c:282-300 | the same once the function has set up its frame, wherever it then is |
| Unwind.UpMissesCaller | src/regs.c:274-300 | right after that push up never finds the caller |
| Unwind.UpPassesCaller | src/regs.c:282-300 | it shows there what it would show from the caller |
| Unwind.Registers.UnwindFromStackTop | src/regs.c:234-263 | the caller from the top of the stack, or failure without change |
| Unwind.Registers.Backtrace | src/debugger.c:3551-3575 | the pcs listed are those of the frame chain, at most 64 |
| Unwind.ChainClimbs | src/debugger.c:3532-3549 | frame pointers strictly increase, so no frame repeats |
| Unwind.UpAgreesWithTrace | src/regs.c:265-303 | k times up is the pc of backtrace frame k, unless a pc on the way is at a push |
| Unwind.FirstFrameIff | src/regs.c:274-280 | at a push the two agree exactly when the stack top is the frame record's return address |
| Unwind.TraceSkipsCaller | src/debugger.c:3551-3575 | at a push the backtrace leaves out the caller that up visits first |

## Left out

- Machine.ResumeIsBare: one debuggee thread; which of several threads trapped (src/debugger.c:1512-1535) is not modelled, nor is a program that reads or rewrites its own code, nor addresses that wrap at 64 bits (code is mapped far below).
- Sessions.Session.Wait: registers are those of the thread itself rather than a cached copy.
- Sessions.Session.EnableAt: code memory can be written exactly where it is mapped, so the failing write of src/breakpoint.c:28-31 does not occur.
- Sessions.Session.DisableAt: the failing write of src/breakpoint.c:42-44 does not occur.
- Sessions.Session.ReenableAfterStep: with no failing write, no failure midway that leaves some breakpoints armed.
- Sessions.Session.ReportStop: pushing watchpoints to new threads is modelled in HardwareWatch, not repeated here; switching to the thread that trapped and printing are left out.
- Debugging.Debug: nothing is said of what follows a trap left unreported, from where the program does what it never does by itself, or a second breakpoint on an address; commands given after the program has ended, which do nothing but edit tables, are left out; watch and unwatch act on the table of watchpoints only, the registers being the subject of HardwareWatch.
- Runs.DebugRuns: commands given in a run whose entry stop failed or lost the thread are left out; starting the process and reading its symbols are given from outside.
- TempBreakpoints.SetTemp: the failing trap write does not occur.
- TempBreakpoints.DropTemp: the failing restore does not occur.
- NextLines.NextSourceLine: how far the kernel lets each call run is a function given from outside; `NeverJustAfter` is assumed, without which a step of it goes wrong as one of `step` does.
- Threads.Process.Execute: stepping here only lets time pass; what PT_STEP does to several threads, and the hang when the primary thread is itself suspended, are kernel behaviour.
- Threads.Process.Churn: threads appear and exit while the process runs, not between the calls of one command made while it is stopped.
- HardwareWatch.Watcher.HwInstall: debug-register access of a live thread succeeds, so a slot is never programmed on some threads only.
- HardwareWatch.Watcher.DeleteAt: the branch for a process that has ended, which only shifts the table, is left out.
- LineProgram.LineNumbers.ParseLineProgram: starts from a given header and file table and watches the loop for a given number of iterations, since it need not end; a cursor that has left the data backwards is followed no further; the line register is unbounded, since overflowing it is undefined in the source; allocation never fails and paths are not cut at 512 characters.
- Grammar.ParseIff: starts from tokens; the stack of the generated parser is grouped by the rule each part awaits, so its states and error messages are not modelled.
- Evaluator.EvalReadsPlace: variables, struct members and type sizes are functions given from outside, and memory a fixed map of bytes while the process is stopped; floating-point values are opaque bits; shift counts are taken modulo 64, which the source leaves undefined; type names are not cut at 128 characters.
- Restart.RestartKeepsIff: splitting the text of a break argument into its kind is a function given from outside; addresses that wrap when loaded are excluded.
- Unwind.Registers.FrameUp: the arm64 variant, which reads the link register, is left out.
- Line-table headers of versions 4 and 5, Mach-O and symbol-table reading, and everything scraped from dwarfdump, nm, otool and leaks.
- The arm64 breakpoint path: its pc rewind is not meaningful there.
- Starting, attaching to and signing processes, Ctrl-C, source windows, disassembly, help and command-line splitting.
