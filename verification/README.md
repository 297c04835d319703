# MongOS: processes, consoles, files and programs

A Dafny model of a small x86 kernel with three terminals and at most six processes, its read-only file
system and some of its user programs, with proofs of what the kernel's own comments and call
documentation promise. Code that updates memory in place is modelled by classes over arrays and by methods
with loops. Each handler or system call is one atomic step and is proved equal to a function of the state before
it; the theorems about whole runs are about these functions.

| file | subject |
|---|---|
| `Processes.dfy` | the process machine as it is meant: three call stacks scheduled round-robin |
| `Kernel.dfy` | `execute`, `halt`, `process_switch` and the pid table on shared control blocks, refining the three stacks |
| `Descriptors.dfy` | a process's file descriptor table: `open`, `close`, and what `execute` and `halt` do to it |
| `Command.dfy` | splitting a command line and handing its tail to the program |
| `Screen.dfy` | one text screen: `putc`, scrolling, clearing, and the text just before the cursor |
| `Console.dfy` | three screens on one physical page: mapping, echo, keyboard, terminal switching, terminal read and write |
| `Keys.dfy`, `LineDiscipline.dfy` | what each key does; whole runs of the console |
| `FileSystem.dfy`, `Directory.dfy`, `Loader.dfy` | block reads and `cat`; lookup by name and enumeration; how `execute` finds its program |
| `Grep.dfy` | the sliding-buffer line search against a search of the whole file |
| `BlinkList.dfy`, `BlinkCalls.dfy`, `BlinkScreen.dfy` | the linked list of blinking characters in its fixed pool, against a plain list; what each call answers and does; what the screen shows |
| `VirtualRtc.dfy`, `Numbers.dfy` | the virtual real-time clock; number printing |
| `CString.dfy`, `Division.dfy`, `Common.dfy` | C strings; division with remainder; shared sizes and types |

## Main results

* **Three stacks** (`Kernel.RunRefines`, `Kernel.ThreeChains`): in every run of timer interrupts, executes and halts the
  kernel's pid table, parent links, saved frames, user page and `tss.esp0` spell three disjoint call stacks, and every
  step transfers control where the stacks say. A run may begin at boot. It may contain anything but a halt by a process
  that a failed bring-up tick has left running without a terminal of its own: such a halt reads a control block that
  does not exist.
* **Call and return** (`Kernel.HaltReturnsToCaller`, `Kernel.ArgsReachProgram`): whatever happens in between, a
  program's halt resumes the frame saved by the execute that started it, and `getargs` finds that execute's argument.
* **No dead terminal** (`Kernel.NoRunningPidGoes`, `Processes.NoTerminalGoesDead`, `Processes.RoundRobin`).
* **Virtual screens** (`Console` methods with `LineDiscipline.TerminalIsAlone`: a terminal's screen and line after any
  run are those of a terminal that had only its own output and its own keys), **line editing**
  (`LineDiscipline.LineIsEdited`), **what is shown is what is read** (`LineDiscipline.ShownIsPending`,
  `LineDiscipline.SubmittedIsRead`) and the **cursor bound** (`LineDiscipline.CursorBound`), over every run of keys, ticks,
  output and reads.
* **Files** (`FileSystem.ReadData`, `FileSystem.ReadsConcatenate`, `FileSystem.Cat`) and **grep** (`Grep.DoOneFile`
  with `Grep.GrepIsNaive`).
* **The blink list** refines a plain list over every run of calls (`BlinkList.RunRefines`), with the timing of each
  character in closed form (`BlinkList.BlinkTiming`, `BlinkList.SyncLasts`) and the screen showing it
  (`BlinkScreen.Blinks`, `BlinkScreen.RunAgrees`).
* **Clocks** are independent over every run of interrupts and calls (`VirtualRtc.ClocksApart`).

## Where the code and its documentation part

The model follows the code. In each case below a lemma gives the exact condition or the failing input.

* `execute` is documented to return -1 when a command cannot be executed; it returns 0 for a null command and for a full
  pid table (`Kernel.Kernel.Execute`, `Kernel.ExecuteAnswers`). A program that halts with status 255 is reported as 256,
  like one that died of an exception (`Processes.CallReturn`).
* Before all three shells exist, a tick can select a terminal that gets no process (`Processes.TickFindsProcess`,
  `Processes.BringUpCanFail`).
* A command's argument survives exactly when the whole line fits in 128 bytes (`Command.CommandRoundTrip`).
* When offset plus length wraps around 32 bits, `read_data` returns 0 for a slice that is not empty, or, when both ends
  fall in one block, calls `memcpy` with a count of nearly 2^32 and overwrites memory from the buffer on
  (`FileSystem.ReadData`, `FileSystem.WrapLosesData`). No caller in the kernel makes the sum wrap: `execute` passes offset
  0, and `read` refuses negative counts (`FileSystem.OpenFile.Read`).
* A first word of 32 bytes or more fills `execute`'s name buffer without a NUL, so what is looked up depends on the
  stack behind it (`Loader.NameSpelled`, `Loader.LongWordDecides`, `Loader.LongWordStrays`).
* A name ending in a carriage return cannot be looked up (`Directory.LookupFinds`); listing a directory with all 63
  entries ends with -1, not 0 (`Directory.Enumerates`).
* `grep` misses the pattern in a line of more than 1024 bytes, or prints a piece of that line. A pattern that starts with
  a byte of 128 or more is never found, because that byte is compared as a signed `char` with an unsigned byte
  (`Grep.GrepIsNaive`, `Grep.HighByteMissed`).
* A backspace put at the top-left cell while the current terminal is not the displayed one writes outside the page, in
  output and in echo (`Screen.PutStaysInBounds`), and can do so right after boot (`LineDiscipline.CursorCanLeave`);
  backspaces in program output can move the cursor back into the pending line (`LineDiscipline.OutputKeepsRoomy`).
* A character typed between Enter and the read changes the line read unless it repeats its first character
  (`LineDiscipline.TypeAheadOverwrites`).
* Adding a blinking character at location 0 leaves its slot marked free, and the next add makes the list cyclic
  (`BlinkList.AddKeeps`, `BlinkList.ZeroLocationMakesCycle`).
* `mp1_ioctl_sync` always draws the off character. That is wrong exactly when the source is on and the target's two
  characters differ, and stays wrong until the countdown just copied has run out (`BlinkScreen.SyncDraws`,
  `BlinkScreen.SyncOfLitWrong`, `BlinkScreen.SyncedBlinks`).
* `halt` closes every file of its process, unless the program's name starts with `gr` and it has a file open from
  descriptor 4 on; `close` of such a descriptor closes descriptor 3 instead (`Descriptors.HaltCloses`,
  `Descriptors.OpenThenClose`).

## Model

| member | source | states |
|---|---|---|
| Processes.FreeFrom | student-distrib/syscall.c:700-710 | the pid handed out is the least one not in use, and -1 only when all six are |
| Processes.PushKeeps | student-distrib/syscall.c:148-155 | starting a program on a free pid keeps the three stacks proper and disjoint and adds exactly that pid to the live ones |
| Processes.PopKeeps | student-distrib/syscall.c:69-84 | ending the top program keeps the stacks proper and disjoint and frees exactly its pid |
| Processes.ExecuteKeeps | student-distrib/syscall.c:102-243 | execute, successful or not, keeps the stacks sound and no terminal that was alive dies by it |
| Processes.RestartSucceeds | student-distrib/syscall.c:77-79 | a base shell that halts is always replaced by one new base shell and no other terminal changes |
| Processes.StepKeeps | student-distrib/syscall.c:54-94 | every tick, execute and halt keeps three disjoint proper stacks, and all terminals alive once they are |
| Processes.NoTerminalGoesDead | student-distrib/syscall.c:648-664 | in every run after bring-up each terminal keeps a live process |
| Processes.RoundRobin | student-distrib/pit.c:26-32 | after any run the current terminal is the first plus the number of ticks modulo three: nothing else moves the selection |
| Processes.StepStays | student-distrib/syscall.c:81-92 | one step leaves the lower part of any stack alone unless it halts the topmost of these activations |
| Processes.StaysPut | student-distrib/syscall.c:81-92 | activations below a program that does not halt stay in place over any run |
| Processes.CallReturn | student-distrib/syscall.c:59-92 | the halt that ends a program resumes the frame of the execute that started it with the status it gave, 256 for 255, and restores the caller's stack |
| Processes.AwayUntouched | student-distrib/syscall.c:634-646 | a terminal not selected during a run keeps its stack and its parked frame |
| Processes.TickReturn | student-distrib/syscall.c:634-675 | a terminal is taken up again exactly at the frame where the tick that left it saved it |
| Processes.TickFindsProcess | student-distrib/syscall.c:652-656 | a tick leaves the selected terminal with a process exactly when it had one or a pid is free |
| Processes.GreedyStarves | student-distrib/syscall.c:148-153 | programs nested until no pid is free leave the next tick's terminal without a process |
| Processes.BringUpCanFail | student-distrib/syscall.c:652-656 | a concrete run from boot after which the current terminal has no process |
| Kernel.RegionsDisjoint | student-distrib/syscall.c:157-157 | the 8 KB regions of two processes are disjoint and each kernel stack starts four bytes below the end of its own |
| Kernel.LinkedFrame | student-distrib/syscall.c:157-176 | writing one control block disturbs no stack that its process is not part of |
| Kernel.SaveLinks | student-distrib/syscall.c:638-646 | saving the current process's frame keeps all three stacks linked |
| Kernel.SetUpLinks | student-distrib/syscall.c:157-194 | the control blocks written by execute link the new program to its caller and keep the other stacks |
| Kernel.ChainIsStack | student-distrib/syscall.c:162-164 | the walk along parent links from running_pid gives exactly the pids of the terminal's stack |
| Kernel.ChainReaches | student-distrib/syscall.c:162-164 | six steps suffice for that walk, so it is acyclic, and its last link is -1 |
| Kernel.LinkedEnds | student-distrib/syscall.c:162-164 | the parent links lead from running_pid down the stack and the last of them is -1 |
| Kernel.LinkedOwn | student-distrib/syscall.c:158-194 | every process of a stack has its own pid and kernel stack top in its control block |
| Kernel.ChainsAreStacks | student-distrib/syscall.c:162-164 | the chain read from the control blocks is the stack: same pids, in order, none twice |
| Kernel.ThreeChains | student-distrib/syscall.c:162-164 | in every agreeing state the parent links from the three running_pids form chains ending in -1, no pid is on two chains or twice on one, pid_st marks exactly the pids on chains, pid_cnt is their number, each has its own pid and esp0, and the user page and tss belong to the current process |
| Kernel.TopFacts | student-distrib/syscall.c:194-194 | a terminal's process has its own kernel stack top in esp0, and its saved frame is where the terminal was parked |
| Kernel.ArgsStored | student-distrib/syscall.c:165-167 | the current process's argument array is 128 bytes, NUL-terminated, and spells its activation's argument |
| Kernel.SlotIsPid | student-distrib/syscall.c:700-710 | the scan of pid_st finds the least pid that is not live |
| Kernel.FreeSlot | student-distrib/syscall.c:700-710 | the first zero entry of pid_st, or -1 when there is none |
| Kernel.ExecuteAgrees | student-distrib/syscall.c:148-225 | execute's writes to table, control blocks, paging and tss carry out a push |
| Kernel.PopAgrees | student-distrib/syscall.c:64-92 | halt's writes carry out a pop |
| Kernel.ParkAgrees | student-distrib/syscall.c:634-664 | process_switch's writes park the current terminal and select the next |
| Kernel.ExecuteRefines | student-distrib/syscall.c:102-243 | execute on the shared table is Execute on the stacks, with the same transfer of control; failures change nothing |
| Kernel.HaltRefines | student-distrib/syscall.c:54-94 | halt on the shared table is HaltTop on the stacks, resuming the same frame |
| Kernel.SwitchRefines | student-distrib/syscall.c:634-675 | the timer's process switch on the shared table is Switch on the stacks |
| Kernel.StepRefines | student-distrib/syscall.c:54-94 | each of the three steps keeps the agreement and transfers control alike |
| Kernel.RunRefines | student-distrib/syscall.c:634-675 | every run of ticks, executes and halts, halts being made by a terminal's process, is a run of the three stacks and ends in agreement with it |
| Kernel.NoRunningPidGoes | student-distrib/syscall.c:648-664 | in the kernel's own variables: once no running_pid is -1, none is after any run |
| Kernel.ExecuteAnswers | student-distrib/syscall.c:136-153 | execute answers -1 exactly when the name does not load and 0 exactly when it does and pid_cnt is six; otherwise a pid that was free runs |
| Kernel.ProgramStarts | student-distrib/syscall.c:157-225 | a started program has its own pid, its caller, exactly the terminal's two descriptors open at their start, and the first word of its command as its name; no other process's files or name change |
| Kernel.HaltLeavesNothingOpen | student-distrib/syscall.c:68-75 | the process that halted has no file open, unless its name starts with gr |
| Kernel.KeptStays | student-distrib/syscall.c:64-92 | a process that does not halt during a run keeps its place in its terminal's stack, whatever pids are reused |
| Kernel.KeptOnTop | student-distrib/syscall.c:64-92 | a process current before and after such a run is so on its own terminal, and has its whole stack back |
| Kernel.HaltReturnsToCaller | student-distrib/syscall.c:59-92 | in the kernel's own variables: a started program's halt resumes the frame its execute saved with the status it gave, 256 for 255, and makes the caller current, over any run in between |
| Kernel.ArgsReachProgram | student-distrib/syscall.c:165-167 | in the kernel's own variables: whenever the program runs again its control block holds its command's argument |
| Kernel.Kernel.constructor | student-distrib/keyboard.c:193-212 | boot: no pid taken, no terminal with a process, in agreement with three empty stacks |
| Kernel.Kernel.GetPid | student-distrib/syscall.c:700-710 | takes the first free slot and counts it, or returns -1 and changes nothing |
| Kernel.Kernel.FreePid | student-distrib/syscall.c:718-721 | clears the pid's slot, decrements the count and changes nothing else |
| Kernel.Kernel.SetUp | student-distrib/syscall.c:157-225 | new control block with its descriptor table, caller's saved frame, user page and tss, and nothing else |
| Kernel.Kernel.Execute | student-distrib/syscall.c:102-243 | the whole new state and where control goes: -1 when the directory lookup of the name buffer gives no executable, 0 for a null command or a full table, the program otherwise |
| Kernel.Kernel.Halt | student-distrib/syscall.c:54-94 | the whole new state, the process's files closed, and where control goes: the caller's saved frame, or a new base shell |
| Kernel.Kernel.CloseDown | student-distrib/syscall.c:69-76 | the pid is freed and the process's files are closed |
| Kernel.Kernel.CloseFiles | student-distrib/syscall.c:71-75 | the loop closes each open descriptor from 2 on, as close does |
| Kernel.Kernel.Open | student-distrib/syscall.c:340-382 | the lowest free descriptor from 2 on stands for the entry found, at position 0, on the clock, directory or file functions as its type says; -1 and no change for an empty or unknown name or a full table |
| Kernel.Kernel.Close | student-distrib/syscall.c:390-423 | the effective descriptor is closed, or -1 and no change when it is out of range, unused or not open |
| Descriptors.Started | student-distrib/syscall.c:170-177 | a new program has exactly the terminal's two descriptors open |
| Descriptors.FreeFrom | student-distrib/syscall.c:359-361 | the first free descriptor, or none when all are open |
| Descriptors.CloseAnswers | student-distrib/syscall.c:390-423 | close answers 0 and frees exactly one entry if and only if the one it means is one of the last six, wired and open; otherwise -1 and no change |
| Descriptors.OpenKeepsWired | student-distrib/syscall.c:361-377 | opening and closing keep every open descriptor wired to a device |
| Descriptors.OpenThenClose | student-distrib/syscall.c:340-423 | closing what was just opened frees exactly its descriptor if and only if the program is not called gr... or the descriptor is 2 or 3 |
| Descriptors.LoopCloses | student-distrib/syscall.c:71-75 | what halt's loop leaves open, from any descriptor on |
| Descriptors.HaltCloses | student-distrib/syscall.c:71-75 | halt closes all files if and only if the program is not called gr... or has none open from descriptor 4 on |
| Kernel.Kernel.ProcessSwitch | student-distrib/syscall.c:634-675 | the whole new state and where control goes for the next terminal |
| Kernel.Kernel.SaveOld | student-distrib/syscall.c:638-646 | the old process's frame and stack top are saved in its control block, and nothing else changes |
| Kernel.Kernel.PitIrq | student-distrib/pit.c:26-32 | the next terminal is selected modulo three and switched to |
| Kernel.Kernel.GetArgs | student-distrib/syscall.c:557-574 | the stored argument NUL-padded to nbytes, or -1 when it is longer |
| Kernel.Parse | student-distrib/syscall.c:124-126 | two cleared buffers end up holding name and argument, the argument short enough for its NUL |
| Kernel.ShellLoads | student-distrib/syscall.c:652-656 | the assumption of the run theorems holds exactly when the entry called "shell" is an executable |
| Loader.CheckFile | student-distrib/syscall.c:136-142 | true exactly when the C string at the name buffer leads to an entry that is an executable |
| Loader.CheckHeader | student-distrib/syscall.c:457-485 | the little-endian entry word exactly when the entry is a regular file of at least 40 bytes that starts with the magic number and the word is not all ones; -1 otherwise |
| Loader.ExecutableIs | student-distrib/syscall.c:462-483 | an executable byte by byte: type 2, at least 40 bytes, 7F 45 4C 46 at the start, and not FF FF FF FF at byte 24 |
| Loader.ReadEntryPoint | student-distrib/syscall.c:479-483 | the loop over bytes 27 to 24 builds the little-endian word at byte 24 |
| Loader.NameSpelled | student-distrib/syscall.c:435-442 | the name buffer holds a NUL exactly when the first word has fewer than 32 bytes, and then spells it |
| Loader.WordDecides | student-distrib/syscall.c:124-142 | for a first word of fewer than 32 bytes execute loads a program exactly when the entry of that name (a trailing carriage return dropped) is one |
| Loader.LongWordDecides | student-distrib/syscall.c:104-138 | for a first word of 32 bytes or more execute loads a program if and only if nothing, or just a carriage return, stands behind the buffer and the entry then looked up is one |
| Loader.LongWordStrays | student-distrib/syscall.c:104-138 | for a program with a 32-byte name: found when nothing or a carriage return stands behind the name buffer, not found for another byte |
| Command.HandleCommand | student-distrib/syscall.c:435-449 | the buffers hold the first word, cut to 32 bytes, and what follows its spaces within the first 128 bytes |
| Command.StoredArgsTerminated | student-distrib/syscall.c:124-126 | whatever the command, the stored 128-byte argument contains a NUL and its string is the argument |
| Command.CommandRoundTrip | student-distrib/syscall.c:435-449 | for a line of name, spaces and remainder the name is recovered, and the remainder exactly when the line has at most 128 bytes |
| Command.ArgumentKept | student-distrib/syscall.c:435-449 | of the remainder exactly what lies within the first 128 bytes of the line is kept |
| Command.NoArgument | student-distrib/syscall.c:435-449 | a command without spaces has no argument when it fits 32 bytes; of a longer one the rest is the argument |
| Command.PaddedIs | student-distrib/syscall.c:124-125 | the stored bytes are the string and then zeros |
| Command.GetArgs | student-distrib/syscall.c:557-574 | the argument NUL-padded to nbytes with the rest of the buffer untouched, or -1 and no change when it does not fit |
| CString.StrLenUnique | student-distrib/lib.c:277-282 | the only position with a NUL and none before it is the string's length |
| CString.Strlen | student-distrib/lib.c:277-282 | the loop returns the length of the string in the buffer |
| CString.Strncpy | student-distrib/lib.c:487-498 | n bytes of the destination get the source's prefix and NULs after its end, nothing else changes |
| Screen.PutStaysInBounds | student-distrib/lib.c:178-214 | the cursor stays on the screen exactly unless a backspace is put at the top-left cell while the current terminal is not the displayed one |
| Screen.PutMovesOn | student-distrib/lib.c:197-211 | without a backspace the cursor advances, or a row was scrolled away and it is on the last row |
| Screen.PutPrints | student-distrib/lib.c:200-210 | a character not in the last cell changes that cell alone, to itself with attribute 7, and moves the cursor one cell |
| Screen.PutBreaksLine | student-distrib/lib.c:197-199 | a newline above the last row changes no cell and moves the cursor to the start of the next row |
| Screen.PutScrolls | student-distrib/lib.c:515-529 | a newline on the last row or a character in the last cell: every row moves up, the last is blank with the cursor at its start, hidden cells stay |
| Screen.PutErases | student-distrib/lib.c:186-193 | a backspace blanks the cell before the cursor and moves onto it, and changes no other cell |
| Screen.PutStops | student-distrib/lib.c:180-185 | a backspace at the top-left cell does nothing when the current terminal is displayed |
| Screen.ClearBlanks | student-distrib/lib.c:22-33 | clear blanks the 2000 cells shown, leaves the hidden ones and sends the cursor home |
| Screen.PutSpells | student-distrib/lib.c:197-211 | echoing a character extends the text before the cursor, across row ends and scrolling |
| Screen.EraseSpells | student-distrib/lib.c:179-194 | echoing a backspace takes exactly the last character of that text back, across row starts |
| Screen.PutAllSpells | student-distrib/lib.c:178-214 | echoing a string appends it to the text before the cursor |
| Screen.EraseAllSpells | student-distrib/lib.c:179-194 | n backspaces take n characters back and move the cursor n cells |
| Screen.TypingShows | student-distrib/keyboard.c:103-118 | typing a character, a tab as four blanks, keeps text shown equal to line pending |
| Screen.ErasingShows | student-distrib/keyboard.c:89-102 | deleting the last character, four backspaces for a tab, keeps text shown equal to line pending |
| Console.Console.constructor | student-distrib/keyboard.c:193-212 | boot: empty lines, terminal 0 displayed and current, mapped and cleared |
| Console.Console.StoreVideo | student-distrib/lib.c:196-197 | a store to the video buffer lands in the page that the page table maps |
| Console.Console.VidMem | student-distrib/keyboard.c:333-356 | video mapping, its user copy and the cursor pointers all belong to the terminal: page 0xB8 if displayed, its backing page if not |
| Console.Console.MoveRowsUp | student-distrib/lib.c:521-524 | every row of the mapped page moves up by one |
| Console.Console.BlankCells | student-distrib/lib.c:525-528 | exactly the given cells of the mapped page become blanks |
| Console.Console.ScrollDown | student-distrib/lib.c:515-529 | the selected screen moves up a row, last row blank, cursor at its start; other screens do not change |
| Console.Console.PutBackspace | student-distrib/lib.c:187-193 | the cell before the cursor is blanked and the cursor moves onto it, also across a row start |
| Console.Console.PutOther | student-distrib/lib.c:195-208 | a new line, or the character stored and the cursor advanced |
| Console.Console.PutC | student-distrib/lib.c:178-214 | the selected screen becomes Put of it, no other screen changes, and the hardware cursor follows when it is displayed |
| Console.Console.DisplayPutC | student-distrib/keyboard.c:366-372 | echo changes the displayed terminal's screen only and leaves the mapping with the current terminal |
| Console.Console.Clear | student-distrib/lib.c:22-33 | the displayed screen is blanked, cursor home; mapping back with the current terminal |
| Console.Console.DeleteLast | student-distrib/keyboard.c:94-101 | the last character goes, with as many backspaces echoed as it was drawn wide |
| Console.Console.PressCharacter | student-distrib/keyboard.c:71-120 | a translated key edits the displayed line and echoes: dropped at 127, Enter submits, backspace deletes |
| Console.Console.EmptyLine | student-distrib/keyboard.c:50-56 | control-l clears the displayed screen and empties its line |
| Console.Console.GetCommandChar | student-distrib/keyboard.c:131-185 | modifier, function and escape keys are recognised and carried out, all others left alone |
| Console.Console.KeyboardIrq | student-distrib/keyboard.c:34-122 | the whole console state after any scan code |
| Console.Console.CopyPage | student-distrib/keyboard.c:320-321 | one physical page becomes a copy of another, all others unchanged |
| Console.Console.TerminalSwitch | student-distrib/keyboard.c:308-325 | the displayed page is saved to its backing page, the new one loaded, the mapping back with the current terminal |
| Console.Console.PitIrq | student-distrib/pit.c:26-32 | the next terminal becomes current with its mapping and cursor pointers; no screen changes |
| Console.Console.PutCurrent | student-distrib/lib.c:178-214 | program output goes to the current terminal's own screen, displayed or not |
| Console.Console.WriteTerminal | student-distrib/keyboard.c:288-299 | all bytes are put on the current terminal's screen in order and counted |
| Console.Console.ReadTerminal | student-distrib/keyboard.c:239-280 | the submitted line is copied, its flag cleared, nothing else changed |
| Console.CopyLine | student-distrib/keyboard.c:256-277 | bytes up to Enter, a newline for it and NULs after it, or the first n bytes when no Enter is among them |
| Keys.DigitRow | student-distrib/scancode.h:15-26 | the bytes of the digit row without and with shift |
| Keys.UpperRow | student-distrib/scancode.h:29-40 | the bytes of the row from q |
| Keys.HomeRow | student-distrib/scancode.h:43-54 | the bytes of the row from a |
| Keys.LowerRow | student-distrib/scancode.h:56-66 | the bytes of the row from z |
| Keys.OtherKeys | student-distrib/scancode.h:27-70 | backspace, tab, Enter and space |
| Keys.LettersAre | student-distrib/scancode.h:29-63 | the letter keys are the twenty-six of the three rows and shift makes each a capital |
| Keys.KeyMeans | student-distrib/keyboard.c:48-67 | a letter is small if caps lock and shift agree and a capital if one is on; other keys know only shift; only control with l gives no character |
| Keys.LetterTyped | student-distrib/keyboard.c:59-118 | typing a letter appends it, small or capital, and leaves the line before it |
| Keys.KeyboardModes | student-distrib/keyboard.c:131-185 | shift, control and alt hold from press to release, caps lock turns over, and only alt with F1 to F3 changes the displayed terminal |
| Keys.CommandsAreSilent | student-distrib/keyboard.c:131-185 | mode keys, releases and codes beyond the table change no screen and no line |
| Keys.TypedCharacter | student-distrib/keyboard.c:114-118 | a character is appended to the line and put once |
| Keys.TypedTab | student-distrib/keyboard.c:103-112 | a tab is appended and four blanks are put |
| Keys.TypedOnFull | student-distrib/keyboard.c:71-93 | a full line takes and shows no further character |
| Keys.TypedBackspace | student-distrib/keyboard.c:81-102 | a backspace takes the last character and one cell back, four for a tab; on an empty line nothing |
| Keys.TypedEnter | student-distrib/keyboard.c:73-80 | Enter is stored behind the line, makes it readable, begins an empty one and moves to a new row |
| Keys.ControlLClears | student-distrib/keyboard.c:50-56 | control with l blanks the displayed screen and empties its line |
| Keys.BootIs | student-distrib/keyboard.c:193-212 | terminal 0 displayed and current with a blank screen, lines empty and unsubmitted, no key held |
| LineDiscipline.ShowKeepsScreens | student-distrib/keyboard.c:308-325 | a terminal switch preserves every terminal's screen, line and cursor |
| LineDiscipline.OutputTouchesCurrent | student-distrib/lib.c:178-214 | program output changes the current terminal's screen only and no pending line |
| LineDiscipline.WriteIsRun | student-distrib/keyboard.c:288-299 | a write is the output of its bytes one after the other |
| LineDiscipline.OutputGoesRound | student-distrib/pit.c:26-32 | after any run the terminal that output goes to is the first plus the ticks modulo three |
| LineDiscipline.KeyTouchesDisplayed | student-distrib/keyboard.c:34-122 | no key changes the screen or line of a terminal that is not displayed |
| LineDiscipline.StepEdits | student-distrib/keyboard.c:71-120 | each event edits a terminal's line as a plain editor would, and only by keys that reach it |
| LineDiscipline.LineIsEdited | student-distrib/keyboard.c:71-120 | over any run a terminal's pending line is the fold of the plain editor over the keys it received |
| LineDiscipline.StepIsActed | student-distrib/keyboard.c:34-122 | each event does to a terminal's screen and line what its own output or key does to a terminal alone, and nothing otherwise |
| LineDiscipline.TerminalIsAlone | student-distrib/keyboard.c:308-372 | over any run a terminal's screen and line are the fold of its own output and of the keys pressed while it was displayed |
| LineDiscipline.ForwardIsHarmless | student-distrib/lib.c:195-211 | program output without backspaces meets the hypothesis of the run theorems for every terminal |
| LineDiscipline.OutputKeepsRoomy | student-distrib/lib.c:178-214 | output keeps the cursor on the screen with room for the pending line exactly when it is not a backspace into it or out of the page |
| LineDiscipline.StepKeepsRoomy | student-distrib/keyboard.c:34-122 | each event keeps a terminal's cursor bound, if its own output is harmless, and, except output of its own, what it shows |
| LineDiscipline.CursorBound | student-distrib/keyboard.c:81-113 | over any run in which its own output is harmless a terminal's cursor stays on its screen with at least the pending line's width before it |
| LineDiscipline.ShownIsPending | student-distrib/keyboard.c:71-121 | over any run the cells before the cursor of a terminal without output since its line began spell its pending line |
| LineDiscipline.CursorCanLeave | student-distrib/lib.c:178-194 | without the hypothesis on output the cursor can leave the screen: a concrete run from boot |
| LineDiscipline.BootIsRoomy | student-distrib/keyboard.c:193-212 | the boot state meets the hypotheses of the run theorems |
| LineDiscipline.CopiedLine | student-distrib/keyboard.c:256-277 | a buffer holding a line and its Enter reads back as the line and a newline, cut to n bytes or NUL-padded |
| LineDiscipline.CopiedIs | student-distrib/keyboard.c:256-277 | bytes before the first Enter, a newline for it, zeros after it and the count; or all bytes asked for when no Enter is among them |
| LineDiscipline.LineKept | student-distrib/keyboard.c:239-280 | without keys or reads of its own a terminal's buffer and flag survive any run |
| LineDiscipline.SubmittedIsRead | student-distrib/keyboard.c:114-118 | after Enter and any undisturbed run a read returns exactly the line submitted |
| LineDiscipline.TypeAheadOverwrites | student-distrib/keyboard.c:114-118 | one character typed before the read leaves the line intact if and only if it repeats its first character; an empty line is always lost |
| FileSystem.MemCpy | student-distrib/lib.c:373-410 | exactly count bytes are copied to their place |
| FileSystem.BlockSlice | student-distrib/filesys.c:123-140 | a stretch of the file within one block is that stretch of the data block |
| FileSystem.CopyShare | student-distrib/filesys.c:130-140 | one block's share of the slice is stored, whatever the alignment |
| FileSystem.CopyBlocks | student-distrib/filesys.c:119-144 | the block loop stores exactly content[off..end] and counts it |
| FileSystem.ReadData | student-distrib/filesys.c:106-147 | exactly content[off .. min(off+length, size)] for any alignment; when off+length wraps inside the file, 0 and no change, or a runaway memcpy exactly when both ends fall in one block |
| FileSystem.WrapLosesData | student-distrib/filesys.c:106-147 | in the wrapping case there was something to read, so the condition is exact |
| FileSystem.OpenFile.constructor | student-distrib/filesys.c:238-253 | a freshly opened file is at offset 0 |
| FileSystem.OpenFile.Read | student-distrib/filesys.c:320-329 | the slice at the position is stored and the position moves by the count returned |
| FileSystem.ReadsConcatenate | student-distrib/filesys.c:320-329 | reads of any sizes concatenate to what one read of their total would give |
| FileSystem.Cat | syscalls/ece391cat.c:21-28 | the loop terminates having written exactly the rest of the file |
| Directory.Strncmp | student-distrib/lib.c:450-464 | zero exactly when the first n bytes are equal |
| Directory.IndexOf | student-distrib/filesys.c:55-76 | the first entry with the name, or none when no entry has it |
| Directory.ReadDentryByName | student-distrib/filesys.c:36-79 | the first entry whose whole name is the key (one trailing carriage return dropped), none for names over 32 bytes; also for the empty name |
| Directory.LookupFinds | student-distrib/filesys.c:36-79 | with unique names each entry is found by its own name exactly when that does not end in a carriage return |
| Directory.LookupFails | student-distrib/filesys.c:36-79 | a lookup fails exactly when no entry has the name; names over 32 bytes have none |
| Directory.LookupDropsReturn | student-distrib/filesys.c:46-49 | one carriage return at the end of a name makes no difference |
| Directory.MyCopy | student-distrib/filesys.c:366-380 | whole words are copied and nothing else changes |
| Directory.DirectoryFile.Read | student-distrib/filesys.c:336-356 | one name, 32 and the next position; 0 at an empty name; -1 past the last slot |
| Directory.Enumerates | student-distrib/filesys.c:336-356 | repeated reads give every entry's name once in order, then 0 with fewer than 63 entries and -1 with 63 |
| Directory.NamesAt | student-distrib/filesys.c:345-356 | the k-th name listed is the name of the k-th entry |
| Directory.CopySpellsName | student-distrib/filesys.c:345-356 | the 32 bytes copied, followed by a NUL, spell the entry's name |
| Grep.FoundLine | syscalls/ece391grep.c:40-58 | a line ended by a newline is searched as itself |
| Grep.FoundLast | syscalls/ece391grep.c:40-58 | so is a last line without a newline |
| Grep.FoundChopped | syscalls/ece391grep.c:31-58 | a full buffer without a newline is searched as a line of its own |
| Grep.FoundIsNaive | syscalls/ece391grep.c:21-60 | what is found is the matching lines of the file if and only if no line over 1024 bytes contains the pattern, or, for a pattern starting with a byte of 128 or more, no line |
| Grep.PiecesAreNaive | syscalls/ece391grep.c:31-58 | searching lines in pieces of 1024 bytes finds the matching lines if and only if no longer line contains the pattern |
| Grep.HighByteMissed | syscalls/ece391grep.c:43-44 | the file and the pattern of one byte 200: the line matches and is not found |
| Grep.ReportInjective | syscalls/ece391grep.c:46-49 | different findings are written differently |
| Grep.ReportIs | syscalls/ece391grep.c:46-49 | each finding is written as the file's name, a colon, the line and a newline, in order |
| Grep.LinesJoin | syscalls/ece391grep.c:31-58 | the lines of a text make the text when put together |
| Grep.LinesAreLines | syscalls/ece391grep.c:31-58 | and hold no newline |
| Grep.GrepIsNaive | syscalls/ece391grep.c:21-60 | what is written reports each matching line once, in order, and no others, if and only if no line over 1024 bytes contains the pattern, or, for a pattern starting with a byte of 128 or more, no line |
| Grep.Strncmp | syscalls/ece391support.c:35-46 | zero exactly when the pattern stands at this place before the NUL |
| Grep.StrcpyDown | syscalls/ece391support.c:14-17 | the overlapping copy moves the text down to the start of the buffer |
| Grep.SearchLine | syscalls/ece391grep.c:43-53 | true exactly when the line contains the pattern and the pattern's first byte, as a signed char, is not negative |
| Grep.LineEnd | syscalls/ece391grep.c:32-34 | the first newline at or after the start, or the end of the data |
| Grep.SearchAndReport | syscalls/ece391grep.c:41-53 | the line is reported, up to a NUL in it, exactly when that search succeeds |
| Grep.Fdputs | syscalls/ece391support.c:19-22 | the bytes up to the first NUL |
| Grep.Defer | syscalls/ece391grep.c:35-40 | a partial line is kept at the start of the buffer |
| Grep.SearchNext | syscalls/ece391grep.c:32-54 | a line of the buffer is accounted for and no byte of the file is lost |
| Grep.SearchBuffer | syscalls/ece391grep.c:31-58 | the inner loop terminates with the unread rest accounted for and less than a full buffer kept |
| Grep.FillBuffer | syscalls/ece391grep.c:24-29 | the buffer holds the bytes of the file before its position, and is only left part-full at the end of the file |
| Grep.Round | syscalls/ece391grep.c:23-61 | a round of the outer loop keeps everything read either reported or in the buffer |
| Grep.DoOneFile | syscalls/ece391grep.c:10-66 | the loop terminates with every index in the buffer, having written exactly the report of what is found, and read the file to its end |
| BlinkList.ChainBounds | fish/blink.S:59-93 | a list's slots are in the pool and pairwise different |
| BlinkList.ChainNext | fish/blink.S:59-93 | each link leads to the next slot of the list, the last to null |
| BlinkList.ChainUnique | fish/blink.S:59-93 | the list is determined by the pool and its head |
| BlinkList.AddKeeps | fish/blink.S:105-184 | a successful add leaves a list covering exactly the used slots if and only if the location is not 0, and then the new element is first |
| BlinkList.ZeroLocationMakesCycle | fish/blink.S:105-184 | after an add at location 0 the next add links the slot to itself |
| BlinkList.RemoveKeeps | fish/blink.S:187-237 | taking an element out leaves the list without it and its slot clear |
| BlinkList.TickKeeps | fish/blink.S:49-99 | a tasklet leaves the list as it is |
| BlinkList.SyncKeeps | fish/blink.S:240-300 | a sync leaves the list as it is |
| BlinkList.AddThenRemove | fish/blink.S:105-237 | removing the location just added finds that element and restores list and pool exactly |
| BlinkList.PoolFull | fish/fish.c:160-170 | allocation fails exactly when the list holds 2000 elements |
| BlinkList.FreeSlot | fish/fish.c:160-170 | the first slot with location 0, or none when all are used |
| BlinkList.First | fish/blink.S:351-379 | the first element with the location, or none when no element has it |
| BlinkCalls.AddServed | fish/blink.S:105-184 | add succeeds exactly for a location on the screen and a pool not full; the new element is first, on, with its whole on period, and its character is drawn; nothing else changes |
| BlinkCalls.RemoveServed | fish/blink.S:187-237 | remove answers 0, takes exactly the first element at the location out and keeps the others in order |
| BlinkCalls.RemoveGone | fish/blink.S:187-237 | a location used once is not found after its removal |
| BlinkCalls.FindServed | fish/blink.S:302-349 | find changes nothing and answers whether there is an element |
| BlinkCalls.SyncServed | fish/blink.S:240-300 | sync copies lengths, countdown and status to the target, draws one byte and changes nothing else |
| BlinkCalls.FailsWhenAbsent | fish/blink.S:187-300 | remove and sync fail without change exactly when an element they need is absent |
| BlinkCalls.TaskletServed | fish/blink.S:59-93 | each element counts down, changes over when not positive, and keeps everything else |
| BlinkCalls.TaskletDraws | fish/blink.S:59-93 | a tasklet writes only the text bytes at the elements' locations |
| BlinkCalls.AddThenRemoveCalls | fish/blink.S:105-237 | the calls add and remove of one location answer 0 and restore slots, head and list |
| BlinkCalls.RemovePerformed | fish/blink.S:187-237 | a successful remove frees exactly the slot of the first element at the location and changes no other slot but the link to it |
| BlinkList.PerformRefines | fish/blink.S:105-379 | each call on the pool keeps list and pool in agreement and does to the elements and the screen what it does to a plain list |
| BlinkList.AddRefines | fish/blink.S:105-184 | add is consing on the plain list, failing exactly for a location over 1999 or 2000 elements |
| BlinkList.RemoveRefines | fish/blink.S:187-237 | remove is deletion from the plain list |
| BlinkList.SyncRefines | fish/blink.S:240-300 | sync copies lengths, countdown and status between two elements of the plain list |
| BlinkList.TickRefines | fish/blink.S:49-99 | the tasklet ticks every element of the plain list once |
| BlinkList.RunRefines | fish/blink.S:49-379 | any run of calls on the pool is the same run on the plain list |
| BlinkList.ServeElsewhere | fish/blink.S:49-379 | a call that does not touch a location leaves what is found there, but for a tick |
| BlinkList.RunElsewhere | fish/blink.S:49-379 | over any run not touching a location its element is ticked once per tasklet |
| BlinkList.PhaseStep | fish/blink.S:65-91 | one tasklet moves an element to the next phase of its cycle |
| BlinkList.Periodic | fish/blink.S:65-91 | after n tasklets status and countdown are a closed form of n modulo the cycle, for all 16-bit lengths |
| BlinkList.BlinkTiming | fish/blink.S:49-99 | the same for an added character, whatever other characters are added, removed, found or synced meanwhile |
| BlinkList.SyncLasts | fish/blink.S:262-272 | source and target of a sync keep equal lengths, countdown and status over any run that touches neither |
| BlinkScreen.DrawnAt | fish/blink.S:59-93 | ticking the first n elements draws an element exactly if it is among them and changes over |
| BlinkScreen.TaskletRight | fish/blink.S:49-99 | after a tasklet a character is right exactly if it has just changed over or was right before |
| BlinkScreen.SyncDraws | fish/blink.S:277-285 | sync draws the right character if and only if the source is off or the target's two characters are the same |
| BlinkScreen.SyncOfLitWrong | fish/blink.S:277-285 | a character synced to one just added is on and shown off |
| BlinkScreen.StepAgrees | fish/blink.S:49-379 | a call keeps every character right and alone at its location if and only if it adds at no used location and its sync does not light a target |
| BlinkScreen.RunAgrees | fish/blink.S:49-379 | over any run of such calls every character on the screen is the one its status calls for |
| BlinkScreen.StepRightAt | fish/blink.S:49-379 | a call not touching a location leaves its text right or wrong as it was, but for a changeover, which makes it right |
| BlinkScreen.RightAgain | fish/blink.S:65-91 | over any run not touching a location its text is right at the end if and only if it was at the start or the countdown has run out |
| BlinkScreen.Blinks | fish/blink.S:49-184 | an added character shows its on and off characters for its on and off periods in turn, over any run not touching its location |
| BlinkScreen.SyncedBlinks | fish/blink.S:240-300 | after a sync the target's text is right if and only if the sync did not light it or the copied countdown has run out |
| BlinkList.BlinkPool.constructor | fish/blink.S:17-19 | an empty list and a clear pool |
| BlinkList.BlinkPool.Malloc | fish/fish.c:160-170 | the first free slot or null |
| BlinkList.BlinkPool.Free | fish/fish.c:172-175 | exactly this slot is cleared |
| BlinkList.BlinkPool.Poke | fish/blink.S:43-47 | exactly this byte of the screen is written |
| BlinkList.BlinkPool.Add | fish/blink.S:105-184 | the new pool, list, screen and return value, and the list's invariant for a nonzero location |
| BlinkList.BlinkPool.FindHelper | fish/blink.S:351-379 | the walk terminates at the first element with the argument's low 16 bits, or null |
| BlinkList.BlinkPool.Find | fish/blink.S:302-349 | returns the first element with the location, or -1 and the caller's own structure |
| BlinkList.BlinkPool.Remove | fish/blink.S:187-237 | both walks terminate; the first element found is unlinked and freed, or -1 and no change |
| BlinkList.BlinkPool.Sync | fish/blink.S:240-300 | the new pool and screen, or -1 and no change when either location is absent |
| BlinkList.BlinkPool.TickOne | fish/blink.S:65-91 | one element counted down and changed over at zero, drawn only then |
| BlinkList.BlinkPool.Tasklet | fish/blink.S:49-99 | the walk terminates having ticked and drawn every element once, in list order |
| VirtualRtc.Irq | student-distrib/rtc.c:119-137 | every process's clock is ticked once, independently of the others |
| VirtualRtc.RtcOpen | student-distrib/rtc.c:72-80 | the process's clock starts at two interrupts a second |
| VirtualRtc.RtcClose | student-distrib/rtc.c:88-95 | the process's clock stops, no other changes |
| VirtualRtc.PeriodOf | student-distrib/rtc.c:40-64 | the greatest number of interrupts at which the frequency is still met |
| VirtualRtc.RtcWrite | student-distrib/rtc.c:40-64 | the clock restarts with the period of the clamped frequency; null buffers and sizes other than 4 are refused without change |
| VirtualRtc.Conserved | student-distrib/rtc.c:119-137 | every interrupt is either in the counter or in a firing |
| VirtualRtc.ClosedForm | student-distrib/rtc.c:119-137 | after n interrupts from counter c: (c+n)/maxcount firings and counter (c+n) mod maxcount |
| VirtualRtc.StepLeaves | student-distrib/rtc.c:40-137 | what other processes do with their clocks, and its own reads, leave a clock's counter and period |
| VirtualRtc.ClocksApart | student-distrib/rtc.c:40-137 | over any run of interrupts and calls that do not restart it a clock fires (c+n)/maxcount times and ends at (c+n) mod maxcount, n being the interrupts |
| VirtualRtc.ReadWaits | student-distrib/rtc.c:103-111 | a read returns at interrupt maxcount - counter, between 1 and maxcount, and not before; on a closed clock never |
| VirtualRtc.Frequency | student-distrib/rtc.c:40-64 | a frequency f fires at least f times in 1024 interrupts, exactly f times when f divides 1024 |
| Numbers.DigitChar | student-distrib/lib.c:223-223 | the table's characters and their values are inverse, and none is NUL |
| Numbers.NumeralValue | student-distrib/lib.c:222-252 | reading a numeral back gives the value |
| Numbers.NumeralShape | student-distrib/lib.c:222-252 | digits of the radix only, no NUL, no leading zero except in "0" |
| Numbers.BackwardsIsReversed | student-distrib/lib.c:240-251 | the digits as first stored are the numeral reversed |
| Numbers.WordLengths | student-distrib/lib.c:86-131 | a 32-bit value has at most 32 binary, 8 hexadecimal and 10 decimal digits, so it fits printf's buffers |
| Numbers.MirrorStep | student-distrib/lib.c:263-269 | one exchange of the reversal loop mirrors one more pair |
| Numbers.StrRev | student-distrib/lib.c:258-271 | the string is reversed in place and nothing else changes |
| Numbers.StoreDigits | student-distrib/lib.c:240-245 | the digits are stored least significant first |
| Numbers.ItoaPositive | student-distrib/lib.c:240-251 | the reversed digits and a NUL at their place |
| Numbers.Itoa | syscalls/ece391support.c:49-81 | the numeral and a NUL at their place, nothing else changed, for radix 2 to 36 |
| Numbers.PaddingValue | student-distrib/lib.c:98-101 | leading zeros do not change a numeral's value |
| Numbers.PrintHexPadded | student-distrib/lib.c:90-105 | %#x prints the numeral padded with zeros to eight digits |
| Numbers.PrintHex | student-distrib/lib.c:86-106 | %x prints the numeral, %#x always eight digits, both of the same value |
| Numbers.PrintSigned | student-distrib/lib.c:110-131 | a sign and the numeral are put out together |
| Numbers.PrintDecimal | student-distrib/lib.c:110-131 | %u and %d print a text that reads back as the value, negative values behind a minus sign |

## Left out

* Hardware and boot: ports, interrupt controller, timer and clock programming, segment and interrupt tables, `iret`, `leave`/`ret`,
  CR3 and the TLB. Saved esp and ebp are opaque pairs, page-table entries are frame numbers, a VGA cursor register pair is
  one number.
* Handlers and system calls are atomic steps; the busy-waits of `read_terminal` and `rtc_read` are blocked steps, so a
  read is modelled from the moment its flag or trigger is set.
* Copying an executable's image to memory. That the disk holds an executable `shell` is a hypothesis of the run theorems.
  The bytes behind `execute`'s name buffer are a function of the buffer.
* The messages `execute` and the failure paths print; `Console` and `Kernel` are separate machines that both advance the
  current terminal on a tick.
* The system calls `read` and `write`; `open` and `close` are modelled one call at a time, not in whole runs; null-pointer
  checks other than those modelled, signal stubs, and the `vidmap` call with its present bits and the terminals' flags. The
  address in the user's video entry is part of the model.
* Access rights in page-table entries.
- Screen.PutStaysInBounds: a store outside the 4 KB video page hits memory that is not part of this model; the lemma says exactly when one happens.
- Console.Console.ReadTerminal: a null buffer, answered with a message on the displayed terminal, is not modelled.
- Kernel.RunRefines: a halt by a process without a terminal, possible only after a failed bring-up tick, is excluded; so are its other system calls, which are not part of the process machine.
- Command.GetArgs: an empty argument, or one of newlines only, makes the source scan below its array, and a negative size counts as a huge one; these are excluded.
- Kernel.Kernel.GetArgs: excludes the same arguments as Command.GetArgs.
- Directory.MyCopy: counts that are not a multiple of four are excluded; for them the source advances by words.
- Directory.DirectoryFile.Read: requests above 32 bytes, which copy past the name, and those not in whole words are excluded.
- Grep.DoOneFile: the file holds no NUL and the uninitialised byte after the buffer is not a newline; `char` is signed, as gcc has it on x86; a failing open, read or close and its message are not modelled, nor is the loop of `main` over the directory.
- FileSystem.ReadData: a null inode and an uninitialised file system are not modelled, nor is what `memcpy` does with a wrapped count, which is reported as `Overrun`.
- Kernel.Kernel.Halt: the terminal's vidmap flag, set to the caller's, is not modelled, nor that closing a clock stops it, which VirtualRtc.RtcClose states.
- BlinkList.BlinkPool.Add: copying from and to user memory always succeeds, and the screen is always mapped.
- Numbers.Itoa: radices below 2 and above 36, for which the table has no digits, are excluded.
- VirtualRtc.RtcWrite: a buffer is one number or null.
* `ece391emulate.c`, pingpong, counter, the shell and the test harnesses; assembly variants of `memcpy` and `memset`.
