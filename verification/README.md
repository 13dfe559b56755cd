# OreOS: a verified model of its compiler, memory, processes and file system

OreOS is a small 64-bit operating system with its own language. This project models the parts in which a
mistake would be hard to see: the OreLang compiler `orec`, which writes x86-64 bytes in a single pass and
patches them afterwards; the page allocator, the page tables and the per-process memory on top of them; the
loaders for programs and kernel modules; the process machine and the thread scheduler; the kernel heap; the
OreFS disk format; and the packet code of the network program. `dafny verify dfyconfig.toml` checks the whole.

What the code updates in place is a class here (`Orec`, `Allocator`, `Manager`, `System`, `KernelHeap`, `Table`,
`Scheduler`, `Vfs`, `LocalTable`): its methods are proved against functions on values, and the theorems are about
those functions and about every run of them.

## How the parts fit

* **Language and machine.** `OreLang` gives programs a clocked big-step meaning over signed 64-bit integers.
  `X86` and `Machine` are the instruction bytes that `orec` emits and a processor that fetches, decodes and
  executes them. `Codegen` says which bytes belong to which program; `Straight`, `Frames`, `SimExpr`, `SimFrame`,
  `Unfold`, `Simulation` and `Whole` prove that those bytes do what the program says, in both directions, and
  `Boundaries` that every jump and call in them, executed or not, goes to an instruction of its own function or to a
  function.
* **The compiler.** `Parser` is the grammar as a function from tokens to programs and `ParseWf` what it
  guarantees. `Rendering` writes syntax trees down as tokens, on its own, and proves that the grammar reads back
  exactly what was written. `Relink` proves that filling in fields afterwards gives the same bytes as knowing the targets from
  the start; `Emission`, `EmissionS` and `EmissionP` account for what each emit call adds. `Compiler.Orec` is the
  single pass itself, with its fixed-size tables; `SourceSize` bounds the data by the characters of the source.
  `Layout` and `Locals` are struct layout and stack frames for
  types of any size, in the 32-bit arithmetic of the source.
* **Images.** `Image` and `Kmod` are the two file formats and the checks of their loaders; `DataRefs` follows each
  data reference into the loaded text; `EndToEnd` and `Modules` join compiler, format, loader and machine.
* **Memory.** `Pmm` and `Boot` are the bitmap allocator and its start-up, `PageTables` and `Vmm` the four-level
  tables, `Ownership` and `UserMemory` who owns which frame, `Loader` the placement of a program.
* **Running.** `Processes`, `WaitResult` and `Resume` are the process machine, `Threads` the run queue, `HeapCells` and `Heap`
  the kernel heap.
* **Data.** `OreFs` and `Directory` are the disk; `Network` and `Dns` the checksum, the header scanner and names.

## Where the code does less than one might expect

Each of these is kept as the code has it, with the exact condition, for all inputs, under which the code does what
one would expect.

* `build_image` and `build_kmod_image` do not look at the end of their buffer. They stay inside it exactly when the
  text or the data leaves room for the header (`EndToEnd.Build`, `Modules.BuildModule`), and always when the function
  bodies are separate parts of a source that fits its own buffer (`SourceSize.DataFits`).
* `patch32` does not look at the end of the text either; a program that fits the tables is patched inside its text
  only (`Compiler.Orec.CompileSource`, `EndToEnd.Build`).
* A repeated `let` with a larger type zeroes the slots of the new type from the old variable's offset upward, into
  the variable before it or the saved registers (`Locals.ZeroIff`, `Locals.ZeroSpills`, `Locals.DeclaredAgain`).
* Local variables and structs are laid out in 32-bit arithmetic (`Locals.LaidIff`, `Layout.LayOut`).
* The module loader adds sizes in 64 bits and may accept sections that do not fit (`Kmod.AcceptedPlain`,
  `Kmod.WrappedAccepted`, `Kmod.Place`).
* A wait is ended by whichever child exits first, and returns at once for a child that is blocked
  (`WaitResult.WaitDelivers`, `Processes.AnyChildWakes`).
* One pass of `kfree` merges pairs only (`HeapCells.FullMergeIff`, `HeapCells.NotFullyMerged`), and `kmalloc` truncates
  page counts of huge requests to 32 bits: the block it records lies on its pages exactly when the request fits
  (`Heap.SoundIff`, `Heap.HugeOnEmpty`, `Heap.RefusedRequest`).
* Overlapping memory descriptors make the free counter wrong (`Boot.Start`), and the search for the bitmap's place looks
  at the kernel but not at the initial file system or the boot record (`Boot.StorageMisses`, `Boot.StorageBlind`).
* A process that was once switched out or started by the timer is picked up by the timer at its old place, and not where
  it yielded since (`Resume.ResumesAt`, `Resume.Restarted`).
* The name skipper of the network program follows lengths without looking at the end of the packet (`Dns.SkipName`).
* A read of zero bytes fails at a sector border (`OreFs.ZeroRead`), and a name that is both a file and a directory is
  listed as one and reported as the other (`Directory.StatAgrees`).
* A thread that sleeps while no other can run goes on at once (`Threads.SleepWithoutSwitch`).

## Model

| member | source | states |
|---|---|---|
| `X86.DecodeEncode` | user/orec.c:236-356 | The bytes of every instruction the compiler emits decode to that instruction and its length, whatever follows them. |
| `Straight.BinEffect` | user/orec.c:944-1069 | The code of every binary operator, with the left operand on the stack and the right one in rax, leaves the signed 64-bit result in rax and pops the stack, or raises the divide error exactly when the operator has no value. |
| `Straight.UnEffect` | user/orec.c:862-942 | The code of every unary operator leaves the operator's value in rax, and rsp, rbp and all memory as they were. |
| `SimFrame.Enter` | user/orec.c:250-258 | The prologue and the parameter stores save rbp and rbx, reserve the frame and put every argument in the slot of its parameter, truncated to its size. |
| `SimFrame.Leave` | user/orec.c:260-265 | The epilogue restores rbx, rbp and rsp and returns to the caller. |
| `Simulation.SimE` | user/orec.c:638-1091 | Running the code of any well-formed expression, nested calls included, reaches its end with the value in rax, rsp and rbp restored and no live memory changed, or stops as the expression does. |
| `Simulation.SimCall` | user/orec.c:803-822 | A call evaluates its arguments left to right, passes up to six of them in their registers and returns with the callee's value and the caller's frame intact. |
| `Simulation.SimS` | user/orec.c:1095-1335 | Running the code of any statement ends behind it, or just after its innermost loop on a break, or out of the function on a return, with the variables the source semantics gives. |
| `Simulation.SimWhile` | user/orec.c:1157-1183 | A loop runs its condition and body as often as the source semantics says, for any nesting of breaks. |
| `Simulation.SimF` | user/orec.c:1534-1561 | A call of any function of a linked program, at any load address, returns the function's value with the caller's registers and stack restored, or stops as the function does. |
| `Whole.SemanticPreservation` | user/orec.c:1618-1649 | A linked program exits with a code if and only if the source program does, divides by zero if and only if it does, runs forever if and only if it does, and never faults otherwise, for every program that reads no unset variable and does not outgrow its stack. |
| `Whole.NeverBad` | user/orec.c:1095-1335 | A parsed program never gets stuck for any other reason. |
| `Relink.RelinkS` | user/orec.c:191-228 | Filling in the fields of one kind in the code of a statement gives the code compiled with those targets known. |
| `Relink.RelinkFrom` | user/orec.c:1643-1647 | The same for all functions of a program: patching the call table, then the data references, links the text. |
| `EmissionS.AddsWhile` | user/orec.c:1157-1183 | Test, body, jump back, patched test and patched breaks together add exactly the code of the loop and none of its breaks to the tables. |
| `EmissionS.AddsIfElse` | user/orec.c:1184-1212 | Test, branches, jump and the two patches together add exactly the code of the conditional. |
| `EmissionP.AddsF` | user/orec.c:1534-1561 | Prologue with an unknown frame, parameters, body, fall-off and the patched frame size together add exactly the code of the function. |
| `EmissionP.LinkCalls` | user/orec.c:1640-1647 | Patching the call table of an emitted text resolves every call. |
| `EmissionP.LinkData` | user/orec.c:1769-1776 | Patching the data references then gives the text linked for a data section at that offset. |
| `ParseWf.ParsedWf` | user/orec.c:1095-1335 | Every program that parses is well formed: variables and callees exist, argument counts agree, breaks stand in loops, and references lie in the data section. |
| `ParseWf.LiteralStays` | user/orec.c:230-234 | A string literal stands, with its zero, at the offset it was given in the finished data section, unless the section was too full for it. |
| `Compiler.Orec.Emit8` | user/orec.c:169-169 | A byte is appended to the text, or dropped when the text is full. |
| `Compiler.Orec.Patch32` | user/orec.c:173-178 | A field inside the text gets its four bytes and nothing else changes; whether all patches so far lay inside the text buffer is kept on record. |
| `Compiler.Orec.PatchTable` | user/orec.c:220-228 | Patching every entry of a table is the patch of the whole text with that table, and stays inside it when the table does. |
| `Compiler.Orec.CompileExpr` | user/orec.c:1071-1091 | Succeeds exactly when the grammar has an expression there, leaves the rest of the tokens, and emits that expression's code and table entries; what the grammar reads is fixed by `Rendering.ReadExpr`. |
| `Rendering.ReadExpr` | user/orec.c:638-1091 | For every surface expression, written with one token per operator and parentheses only where precedence and left association need them, the grammar reads exactly its meaning, or nothing when it names an unknown variable or function or passes the wrong number of arguments; the rest of the tokens and the data are what they should be. |
| `Rendering.ReadS` | user/orec.c:1095-1335 | The same for every statement, variables declared by it included. |
| `Rendering.ReadB` | user/orec.c:1326-1335 | The same for blocks, which end at their closing brace. |
| `Rendering.ReadProgram` | user/orec.c:1534-1649 | The functions of a written program are read as what they mean, with the data section holding their literals in order, and rejected exactly when one of them means nothing. |
| `Rendering.CompilesAs` | user/orec.c:1618-1649 | Compiling a written program succeeds exactly when it means something and has its entry function, and then, if it fits the tables, gives the linked code of that meaning. |
| `Rendering.ReturnExits` | user/orec.c:944-1069 | For every binary operator and any two numbers, the tokens of a main that returns the one operator the other are read as that, and it exits with the operator's value or divides by zero. |
| `Compiler.Orec.CompileCall` | user/orec.c:713-822 | The same for a call, with its argument count checked and its call-table entry made. |
| `Compiler.Orec.CompileLet` | user/orec.c:1132-1156 | The same for a declaration: the variable is found or added, then stored to or zeroed. |
| `Compiler.Orec.CompileIf` | user/orec.c:1184-1212 | The same for if and else, whose jumps are patched behind the branches. |
| `Compiler.Orec.CompileWhile` | user/orec.c:1157-1183 | The same for loops: the enclosing loops' break lists come out as they were. |
| `Compiler.Orec.CompileBlock` | user/orec.c:1326-1335 | The same for blocks. |
| `Compiler.Orec.CompileFunction` | user/orec.c:1534-1561 | Emits exactly the code of the function that the grammar finds, at the address recorded for it. |
| `Compiler.Orec.CompileSource` | user/orec.c:1618-1649 | Succeeds exactly when the source parses and has its entry function, and then, if nothing overflowed a table, the text is the linked code and every patch lay inside it, for programs and for kernel modules. |
| `Compiler.Orec.BuildImage` | user/orec.c:1778-1795 | Resolves the data references and writes header, padded text and data; all writes stay in the buffer if and only if the image fits it. |
| `Compiler.Orec.BuildModule` | user/orec.c:1808-1834 | The same for a module, whose header names the offsets of its entry and its command function. |
| `EndToEnd.Build` | user/orec.c:1838-1905 | Compile and write: with the compiler's own buffer the writes stay inside if and only if the text has at most 0x7000 bytes or the data at most 0x8000 less the header, and then the buffer holds the image of the source; they always stay inside when the bodies are separate parts of a source that fits its buffer, and no patch leaves the text of a source that fits the tables. |
| `SourceSize.CostFrom` | user/orec.c:640-657 | Over all functions of a source, every 512 bytes of data cost at least 514 characters of source that is read. |
| `SourceSize.DataFits` | user/orec.c:112-113 | When the bodies together have at most 32767 characters, as separate parts of the source buffer have, the data leaves at least 120 bytes of its 0x8000 free, room for either header. |
| `Boundaries.JumpsStay` | user/orec.c:1534-1561 | In every linked text, each function is a list of instructions, one behind the other up to the next function; each decodes where it stands, every Je and Jmp of it goes to the start of an instruction of the same function or to its end, and every call to the address of a function. |
| `Boundaries.SourceJumps` | user/orec.c:1157-1212 | The same for every source that parses and fits the tables, as a program and as a module. |
| `Boundaries.StartCalls` | user/orec.c:1628-1642 | The first instruction of a program is a call of main. |
| `Image.HeaderRoundTrip` | kernel/syscall.c:229-239 | Reading a written image header gives it back. |
| `Image.BuiltAccepted` | kernel/syscall.c:229-254 | Every image the compiler builds is accepted by the loader, with the text, padding and data where its header says. |
| `Image.AcceptsIff` | kernel/syscall.c:229-254 | An image is accepted if and only if it is long enough, starts with the magic bytes, names the version, and its sizes and entry obey the limits in exact arithmetic. |
| `DataRefs.LeasP` | user/orec.c:365-370 | Every entry of the data-reference table is the field of a rip-relative lea in the linked text, and of the right one. |
| `DataRefs.LeaRuns` | user/orec.c:1769-1776 | Executed at any load address, that lea leaves the load address plus the data offset in rax. |
| `EndToEnd.UserLea` | kernel/syscall.c:229-254 | In a process that runs a compiled image every lea yields the address at which the process sees its own data item. |
| `EndToEnd.CompileLoadRun` | kernel/syscall.c:229-293 | A process that runs the image of a source sees its data where the code expects it and does exactly what the source program does. |
| `Kmod.KRoundTrip` | user/orec.c:1808-1826 | Reading a written module header gives it back. |
| `Kmod.AcceptedPlain` | kernel/okmod.c:115-123 | For every accepted module file, the sections lie inside the file and the limit if and only if none of the three sizes is larger than the limit. |
| `Kmod.KAcceptsIff` | kernel/okmod.c:101-123 | The files that are accepted with sizes below the limit are exactly those that start with OREKMOD1, name the right versions, carry no tables, and whose sections, in exact arithmetic, lie inside the file and the limit with the entry inside the text. |
| `Kmod.WrappedAccepted` | kernel/okmod.c:115-123 | A file with a text size close to 2^64 that both checks accept although its sections do not fit. |
| `Kmod.Place` | kernel/okmod.c:125-134 | Placing an accepted module accesses nothing outside the file and its pages if and only if its sizes are that small, and then the pages hold text, data and zeros. |
| `Modules.BuildModule` | user/orec.c:1618-1649 | Compile and write a module; the writes stay inside the buffer if and only if the file fits it, and then the buffer holds the module of the source; they always do for separate bodies, and no patch leaves the text of a source that fits the tables. |
| `Modules.ModuleAccepted` | kernel/okmod.c:101-123 | The loader accepts every built module, and reads back the offsets of module_init and of command_main, or all ones when there is none. |
| `Modules.ModuleLea` | kernel/okmod.c:125-134 | At every load address, each lea of the module leaves in rax the address of its own data item, and the bytes there are the item's. |
| `Modules.ModuleInit` | kernel/okmod.c:148-149 | The kernel's call at the entry the header names runs the source function module_init on its argument, at every load address. |
| `Layout.LayOut` | user/orec.c:1396-1411 | The fields of a struct are in order, disjoint, aligned and inside it if and only if its exact size has 32 bits; a packed struct has the prefix sums as offsets. |
| `Locals.LocalTable.AddVar` | user/orec.c:519-531 | A variable gets the next whole slots of the frame, in wrapping 32-bit arithmetic, or is refused when the table is full. |
| `Locals.LocalTable.FindVar` | user/orec.c:514-517 | The variable first declared under a name. |
| `Locals.LocalTable.Let` | user/orec.c:1132-1152 | A declaration without a value stores to the slots of its own type from the offset of the variable it finds or adds; the stores stay inside that variable if and only if its type has as many slots. |
| `Locals.LaidIff` | user/orec.c:1540-1558 | Under the patched frame size, variables of any types are disjoint from each other, from the saved rbx and from pushed temporaries if and only if together with the saved rbx they take at most 2^31 - 48 bytes. |
| `Locals.Disjoint` | user/orec.c:1540-1558 | In terms of bytes: no byte belongs to two variables, to a variable and the saved registers, or to a variable and the area below rsp. |
| `Locals.ZeroIff` | user/orec.c:1149-1151 | Zeroing stays inside the variable if and only if the declared type has no more slots than the variable's, and covers it if and only if it has no fewer. |
| `Locals.ZeroSpills` | user/orec.c:1140-1151 | Otherwise the first store too many goes into the variable declared before, or for the first variable into the saved rbx, then rbp and the return address. |
| `Locals.DeclaredAgain` | user/orec.c:1140-1151 | An eight-byte variable declared again as four words stores to its slot, the saved rbx, the saved rbp and the return address. |
| `Boot.MaxPhys` | kernel/pmm.c:81-89 | The highest end of usable memory. |
| `Boot.FindStorage` | kernel/pmm.c:64-79 | The first run of usable pages at or above 1 MiB that misses the kernel, or none when there is none; it is the start of a descriptor, 1 MiB, or the page right behind the kernel. |
| `Boot.ChosenFirst` | kernel/pmm.c:64-79 | That page, computed from the memory map and the kernel alone, is the first place there is. |
| `Boot.StorageMisses` | kernel/pmm.c:64-79 | The place also misses the initial file system or the boot record when no usable page touches it. |
| `Boot.StorageBlind` | kernel/pmm.c:64-79 | Otherwise nothing keeps it off them: wherever a place is found, the same place is found when one of them already lies there. |
| `Boot.Start` | kernel/pmm.c:81-126 | The kernel panics exactly when there is no usable memory or no place for the bitmap. After start-up the free pages are exactly those at or above 1 MiB that lie in usable memory and meet neither kernel, bitmap, initial file system nor boot record; the counters balance, and the free counter is the number of clear bits if and only if no two memory descriptors overlap. |
| `Boot.KeptIff` | kernel/pmm.c:51-62 | The reserved ranges, rounded to pages, cover a page if and only if the page meets one of the things to be kept. |
| `Pmm.Allocator.Alloc` | kernel/pmm.c:128-152 | The lowest run of free pages at or above 1 MiB is taken; refused exactly when there is none; counters stay balanced and exact. |
| `Pmm.Allocator.Free` | kernel/pmm.c:154-166 | Exactly the busy pages of the range are released; the counters stay balanced if and only if no more pages are released than are in use. |
| `Pmm.Allocator.Reserve` | kernel/pmm.c:51-62 | Exactly the pages of the range become busy and the counters stay balanced. |
| `Pmm.AllocFree` | kernel/pmm.c:128-166 | Freeing a run that was just allocated gives back the bitmap. |
| `PageTables.Slices` | kernel/vmm.c:41-47 | The four shifted and masked parts of an address are the table indices of its page. |
| `PageTables.SlicesInjective` | kernel/vmm.c:41-54 | Pages below 2^48 with the same four table indices are the same page. |
| `PageTables.PteInjective` | kernel/vmm.c:56-70 | A table entry determines its frame and its flags. |
| `PageTables.PteBits` | kernel/vmm.c:56-70 | An entry has bit 0 set, bits 1, 2 and 63 as writable, user and not executable say, the bits between clear, and the frame from bit 12 on. |
| `PageTables.PutEntry` | kernel/vmm.c:41-70 | Writing the entry of one page changes that page and no other, in no other address space for a user page, and elsewhere only where the same table is shared. |
| `PageTables.GrowEntry` | kernel/vmm.c:25-39 | Adding an empty table changes no page of any address space. |
| `Vmm.Manager.NewTable` | kernel/vmm.c:25-30 | A page for a table is taken, and refused exactly when no page at or above 1 MiB is free. |
| `Vmm.Manager.NextTable` | kernel/vmm.c:32-39 | The next table exists or is made, zeroed, from a free page, with an entry that is present, writable and open to user mode as asked; it fails exactly when no page at or above 1 MiB is free, and no page of any address space changes. |
| `Vmm.Manager.PteFor` | kernel/vmm.c:41-54 | The walk finds the last-level table of a page, making exactly the tables that are missing; it fails exactly when fewer pages are free than tables are missing. |
| `Vmm.Manager.Map` | kernel/vmm.c:56-70 | Exactly the pages of the range lead to consecutive frames; no other address space sees a change, not even in its kernel half, when the range is in the user half; table pages come from free pages. It fails only when no page is left and fewer were free than the missing tables of the range. |
| `Vmm.Manager.Protect` | kernel/vmm.c:80-91 | Flags change exactly up to the first page that is not mapped; no translation changes, whether or not it succeeds, and no other address space sees a change for a user range. |
| `Vmm.Manager.Unmap` | kernel/vmm.c:101-111 | Exactly the pages of the range are unmapped, and no other address space sees a change for a user range. |
| `Vmm.Manager.VirtToPhys` | kernel/vmm.c:125-129 | The frame of the page with the offset kept, and 0 exactly when it is not mapped or the result is 0. |
| `Vmm.Manager.CreateUserRoot` | kernel/vmm.c:141-146 | A new root shares the kernel's low tables, maps no user page, and changes no other address space; it takes one page and fails exactly when none is free. |
| `Vmm.CommonView` | kernel/vmm.c:141-146 | What lies under slot 0 is seen identically by all address spaces. |
| `Vmm.Init` | kernel/vmm.c:148-169 | The kernel root maps every page of memory and of the devices to the frame of the same number, writable and never for user mode, devices not executable, and maps nothing else; it fails only when no page is left. |
| `Ownership.OneOwner` | kernel/syscall.c:83-135 | No frame is mapped in the user halves at two places. |
| `UserMemory.System.UserAlloc` | kernel/syscall.c:83-115 | The pages granted are fresh, zero, at the process's next address and in its first free slot; each error has its exact cause, and the panic happens only when fewer pages are free than were asked for and tables are missing; no other process sees a change and every frame keeps one owner. |
| `UserMemory.System.UserFree` | kernel/syscall.c:117-135 | Succeeds exactly when a region matches; its pages are unmapped and its frames free, and nothing else changes for anyone. |
| `UserMemory.System.CreateProcess` | kernel/process.c:52-72 | A new process has a root of its own with no user page mapped, and no other process sees a change; refused exactly when the table is full, and a panic exactly when there is no page for the root. |
| `UserMemory.System.RangeOk` | kernel/syscall.c:25-33 | The check of user pointers holds if and only if the range does not wrap, lies in the user half, and every byte of it is mapped. |
| `UserMemory.System.PokeUser` | kernel/syscall.c:173-180 | A byte is written exactly where one process sees that address, and no other process sees a change. |
| `UserMemory.System.ProtectUser` | kernel/vmm.c:80-99 | Protecting pages changes what no process sees and keeps every frame's owner. |
| `Loader.MapZeroed` | kernel/syscall.c:156-171 | The pages of a range that were not mapped are mapped to fresh zero pages, the others are left as they were; it succeeds whenever the free pages suffice for the range and its missing tables. |
| `Loader.CopyTo` | kernel/syscall.c:173-180 | Bytes are copied up to the first address that is not mapped, into this process only. |
| `Loader.MapStack` | kernel/syscall.c:276-286 | Eight zero pages, writable and not executable, below the stack top; it succeeds whenever the free pages suffice for them and their missing tables. |
| `Loader.LoadImage` | kernel/syscall.c:229-293 | Rejected exactly when the header checks fail; an accepted image is loaded whenever the free pages number at least its pages, the eight of the stack and five for tables. Then the process sees exactly text, padding, data, zeros and an empty stack, and no other process sees a change. |
| `Loader.SpawnImage` | kernel/syscall.c:509-568 | Create and load: with one page more, an accepted image is spawned exactly when the process table has room; the new process runs the image, all processes before it see what they saw, and a failed load leaves an empty process behind. |
| `Loader.WriteXorExecute` | kernel/syscall.c:273-286 | No page of a loaded process is both writable and executable. |
| `Processes.NextReadyIs` | kernel/process.c:101-112 | The wrapped scan finds the cyclically next ready process if and only if there is one. |
| `Processes.RunInv` | kernel/syscall.c:385-425 | In every run, one process runs and it is the current one, every blocked process waits for a younger child that has not exited, and the machine has halted only if every process has exited. |
| `Processes.BootInv` | kernel/process.c:35-46 | The state in which the first user process starts satisfies that invariant. |
| `Processes.NoDeadlock` | kernel/syscall.c:385-421 | In every reachable state a process that has not exited waits, through a chain of younger processes, for one that can run. |
| `Processes.YieldsReach` | kernel/syscall.c:316-328 | A ready process gets the processor within as many yields as its distance from the current one. |
| `Processes.ExitedStays` | kernel/syscall.c:385-421 | An exited process stays exited, with its code. |
| `Processes.BlockedStays` | kernel/syscall.c:399-414 | A blocked process is left alone until one of its own children exits. |
| `Processes.RunPairs` | kernel/syscall.c:569-585 | A process is blocked exactly when it has a place to return to, in every run in which waits pass nonzero pointers. |
| `Processes.CareNeeded` | kernel/syscall.c:569-643 | A wait with a zero pointer breaks that exactly when it names a ready child of the caller, an exec with a zero pointer exactly when its image is loaded. |
| `Resume.ResumesAt` | kernel/process.c:114-150 | A process that yields goes on where it yielded, whatever the others do until it gets the processor back, if and only if a system call gives it back, or it had no interrupt frame when it yielded, or one for that place. |
| `Resume.Restarted` | kernel/process.c:114-150 | A run from the first state in which a process that yielded is restarted by the timer at its entry. |
| `Resume.PreemptedAt` | kernel/process.c:114-150 | A process that the timer interrupts goes on exactly where it was interrupted, whatever the others do until it gets the processor back, and whether a tick or a system call gives it back; a zero place is replaced by the entry or the stack in the latter case. |
| `Resume.SpawnedAt` | kernel/syscall.c:509-568 | A spawn answers the number of the new process, a child of the caller, which is first entered at the entry and the stack of its image whatever happens in between. |
| `Resume.ExecWaits` | kernel/syscall.c:609-643 | An exec is a spawn followed by a wait for the new process, which runs at once. |
| `Resume.PicksNearest` | kernel/process.c:101-112 | Yields, ticks and exits that wake no parent go to the ready process that is cyclically nearest behind the current one. |
| `Resume.Refused` | kernel/syscall.c:509-643 | Waits for no child, spawns and execs with a full table, and images that fail to load have their own error and nothing is run; ticks and yields with nobody to run change nothing. |
| `Processes.CodeTwoWays` | kernel/syscall.c:399-409 | An exit code handed to a waiting parent and handed out again by a later wait is the same both times if and only if it is not negative in 32 bits. |
| `Processes.AnyChildWakes` | kernel/syscall.c:399-409 | A wait for one child that the exit of another child ends. |
| `WaitResult.WaitDelivers` | kernel/syscall.c:569-585 | A wait for a child gives that child's exit code, whatever happens in between, if and only if the child has exited already, or it is ready, the caller has a place to return to, and every other child of the caller has exited. |
| `Processes.Table.ExitCall` | kernel/syscall.c:385-421 | The exit call is the exit transition; the machine halts only when all processes have exited. |
| `Processes.Table.YieldCall` | kernel/syscall.c:316-328 | The yield call is the yield transition. |
| `Processes.Table.WaitCall` | kernel/syscall.c:569-585 | The wait call is the wait transition. |
| `Processes.Table.SpawnCall` | kernel/syscall.c:509-568 | The spawn call is the spawn transition, error results included. |
| `Processes.Table.ExecCall` | kernel/syscall.c:609-643 | The exec call is the exec transition, error results included. |
| `Processes.Table.TickCall` | kernel/process.c:114-150 | The timer tick is the tick transition, which saves the interrupted place as `Resume.PreemptedAt` says; process 1 is never preempted. |
| `Threads.RunInv` | kernel/scheduler.c:24-53 | In every run the queue holds exactly the runnable threads of processor 0, each once, and at most the current thread runs. |
| `Threads.BoundedWait` | kernel/scheduler.c:141-170 | The thread at position k of the queue is dispatched by exactly the (k + 1)-st tick, whatever happens in between. |
| `Threads.SleepsUntil` | kernel/scheduler.c:44-53 | No run makes a sleeping thread runnable before its wake tick; one that was switched away from does not run before it, and the first tick at or after it makes it runnable or runs it. |
| `Threads.SleepWithoutSwitch` | kernel/scheduler.c:180-188 | A sleep returns at once exactly when no thread is waiting and none is due. |
| `Threads.SleepHolds` | kernel/scheduler.c:44-53 | A thread that asks to sleep until a tick and is switched away from neither runs nor is queued in any run before that tick, and the first tick at or after it makes it runnable or runs it. |
| `Threads.ExitFinal` | kernel/scheduler.c:119-126 | A thread that ends is switched away from at the next tick if and only if a thread is waiting or due, and then no run ever queues or runs it again. |
| `Threads.Scheduler.Enqueue` | kernel/scheduler.c:24-33 | Following the links reaches the old queue and then the new thread. |
| `Threads.Scheduler.Dequeue` | kernel/scheduler.c:35-42 | The head of the queue is taken off. |
| `Threads.Scheduler.TickCall` | kernel/scheduler.c:141-170 | The tick is the tick transition on the linked queue. |
| `Threads.Scheduler.CreateCall` | kernel/scheduler.c:93-117 | Creation is the create transition; refused exactly when the table is full. |
| `Threads.Scheduler.SleepCall` | kernel/scheduler.c:180-188 | The sleep call is the sleep transition to the present tick plus the number of ticks asked for, in 64 bits; the boot thread does not sleep. |
| `Threads.Scheduler.ExitCall` | kernel/scheduler.c:119-126 | The end of a thread is the exit transition. |
| `Heap.FitsExactly` | kernel/heap.c:30-47 | A request is rounded up without loss if and only if its page count has 32 bits. |
| `Heap.SoundIff` | kernel/heap.c:30-47 | When pages are granted, the block recorded on them lies inside them and is as large as the request if and only if the request is at most 2^44 - 4128 bytes. |
| `Heap.ZeroPagesIff` | kernel/heap.c:30-47 | A request asks for no pages, and is refused however much memory is free, exactly when its rounded size is a multiple of 2^44. |
| `Heap.RefusedRequest` | kernel/heap.c:30-47 | A request of 2^44 - 32 bytes asks for no pages. |
| `Heap.HugeRequest` | kernel/heap.c:30-47 | A request of 2^44 bytes asks for one page and records a block of more than 2^44 bytes on it. |
| `Heap.HugeOnEmpty` | kernel/heap.c:61-80 | On an empty heap that request succeeds, with one page taken and a second header 2^44 bytes behind the first. |
| `Heap.KernelHeap.FindFit` | kernel/heap.c:61-70 | The first free block in list order that is large enough. |
| `Heap.KernelHeap.RequestBlock` | kernel/heap.c:30-47 | A free block of the recorded size on new pages, linked at the end; refused exactly when no pages are asked for or no run of them is free. |
| `Heap.KernelHeap.SplitBlock` | kernel/heap.c:49-59 | The headers are those of the list with the block cut in two, and only headers of its parts are written. |
| `Heap.KernelHeap.Kmalloc` | kernel/heap.c:61-80 | When a free block of the list is large enough, the first such block is used, split when more than 64 bytes would be left, and no page is taken; otherwise the block is on new pages. For every request that fits or finds a suitable block: an aligned block, large enough and not in use before; blocks stay disjoint and are exactly the heap's pages; every header written misses all memory in use. For every request: refused exactly when nothing suits and no pages are asked for or left; a larger one gets the block of its truncated page count, and one that wraps when it is rounded up a block too small for it. |
| `Heap.KernelHeap.Kfree` | kernel/heap.c:88-102 | The block becomes free and one pass merges neighbours; every other block in use is untouched, no memory is lost, and every header written misses all memory in use. |
| `Heap.FreeAndAgain` | kernel/heap.c:61-102 | A freed block serves an equal or smaller request without a new page, and is handed out again itself when no earlier block suits and nothing merges into it. |
| `HeapCells.FreedOk` | kernel/heap.c:88-102 | Freeing and merging keeps blocks disjoint, covers the same memory and keeps every other block in use. |
| `HeapCells.FreedServes` | kernel/heap.c:88-102 | After a free, some free block contains the one that was freed, and starts with it unless it merged into the one before. |
| `HeapCells.FreedFirst` | kernel/heap.c:61-102 | That block is the first fit for every request it can hold when no earlier one suits and none before it merges. |
| `HeapCells.AllotIs` | kernel/heap.c:49-59 | What a request leaves of its block: all of it when at most 64 bytes would remain, else a used block of the request and a free one behind a new header. |
| `HeapCells.FullMergeIff` | kernel/heap.c:92-101 | One pass leaves no two mergeable neighbours if and only if there were no three free neighbours in a row. |
| `HeapCells.NotFullyMerged` | kernel/heap.c:92-101 | Freeing a block between two free ones merges it with the first and leaves the third. |
| `OreFs.BuildDisk` | tools/mkorefs.py:2442-2480 | The builder fails exactly on a name that is too long and otherwise writes the disk image of the files. |
| `OreFs.MountBuilt` | kernel/vfs.c:168-191 | Mounting a built disk gives exactly one entry per file, with its name, offset and size. |
| `OreFs.MountIff` | kernel/vfs.c:168-191 | A disk is mounted if and only if it starts with OREFS1, names at most 128 entries and holds the sectors of all of them; as many entries are read. |
| `OreFs.MountedEntry` | kernel/vfs.c:168-191 | Entry i is read from the 128 bytes at 512 + 128 i. |
| `OreFs.RoundTrip` | kernel/vfs.c:255-277 | Whatever files a disk was built from, reading one by its path, at any offset and with any positive size, gives exactly that part of its content. |
| `OreFs.MissingFile` | kernel/vfs.c:255-277 | A path that names no file of the disk cannot be read. |
| `OreFs.HandleReadsFile` | kernel/syscall.c:487-494 | Reads through a handle with any positive sizes give the file piece by piece and then nothing. |
| `OreFs.ZeroRead` | kernel/vfs.c:255-277 | A read of zero bytes inside a file fails exactly at a sector border. |
| `OreFs.Vfs.MountDisk` | kernel/vfs.c:168-191 | Mounting fills the entry table, or fails and leaves it alone. |
| `OreFs.Vfs.FindPath` | kernel/vfs.c:128-136 | The lookup finds the first entry of that name. |
| `OreFs.Vfs.ReadFileAt` | kernel/vfs.c:255-277 | The sector loop fills the buffer with the part that was asked for and touches nothing behind it. |
| `Directory.ReadDir` | kernel/vfs.c:291-321 | The index-th call gives the index-th line of the listing, and fails behind the last. |
| `Directory.ListingIs` | kernel/vfs.c:291-321 | The listing is the direct children in order of first appearance, each name once. |
| `Directory.ListingComplete` | kernel/vfs.c:147-166 | Every entry below the directory has its child in the listing. |
| `Directory.ListingExact` | kernel/vfs.c:147-166 | In terms of names alone: a line is in the listing if and only if some entry is named like the child or lies below it, no earlier entry does, and the line is a file of that entry's size in the first case and a directory in the second. |
| `Directory.ListingHas` | kernel/vfs.c:147-166 | For every entry named like a child of the directory, or below one, the listing has a line of that name. |
| `Directory.ListingOrdered` | kernel/vfs.c:291-321 | The lines stand in the order of the entries that decide them. |
| `Directory.StatAgrees` | kernel/vfs.c:205-235 | For paths without a doubled slash, stat of a listed child agrees with the listing on kind and size if and only if it is not both a directory there and a file. |
| `Directory.DoubledSlash` | kernel/vfs.c:128-136 | A doubled slash is dropped for files and only for files. |
| `Network.Fold` | tools/mkorefs.py:600-603 | Folding gives the one's complement value of a sum, section 1 of RFC 1071. |
| `Network.Checksum` | tools/mkorefs.py:605-614 | The checksum of any bytes, of even or odd length. |
| `Network.ChecksumVerifies` | tools/mkorefs.py:605-614 | Stored in a zeroed even field, the checksum makes the recomputed checksum 0. |
| `Network.TcpChecksum` | tools/mkorefs.py:778-793 | The checksum over pseudo-header and segment, section 3.1 of RFC 9293. |
| `Network.PseudoIs` | tools/mkorefs.py:778-793 | What is summed before the segment is the sum of the twelve bytes of the pseudo-header of section 3.1 of RFC 9293: addresses, a zero, protocol 6 and the length. |
| `Network.StoreTcpChecksum` | tools/mkorefs.py:899-901 | After the field is zeroed and the checksum stored, the segment verifies and nothing else changed. |
| `Network.NextTracks` | tools/mkorefs.py:957-993 | The automaton's state is the longest part of CR LF CR LF that the stream so far ends with. |
| `Network.ScanStream` | tools/mkorefs.py:950-994 | Under every segmentation of a stream, the end of the header found is the first, and none is found only when there is none. |
| `Dns.WriteName` | tools/mkorefs.py:667-699 | The name written is every label after its length, then zero, and nothing else changes. |
| `Dns.SkipName` | tools/mkorefs.py:726-734 | For any bytes and any offset: skipping stays inside the buffer if and only if the name there ends in it, and then lands just behind the name. |
| `Dns.NameSkipped` | tools/mkorefs.py:726-734 | Every well-formed name ends where its bytes end, in the root or in a pointer. |
| `Dns.WriteAndSkip` | tools/mkorefs.py:667-734 | For every host with labels of 1 to 63 bytes, encoder and skipper end at the same place and the bytes decode to the host's labels, sections 3.1 and 4.1.4 of RFC 1035. |
| `Dns.DecodeEncode` | tools/mkorefs.py:667-699 | Decoding written labels gives them back. |

## Left out

- Lexing, imports and the scan for functions: the compiler starts from the tokens and declarations of each function.
- Pointers, arrays, structs, field access and return types in code generation: expressions are over integers, with
  locals of 1, 4 and 8 bytes; `Layout` and `Locals` cover where larger types are placed.
- `print`, `puti`, `syscall` intrinsics and extern functions: programs here compute and exit.
- Attributes (`#[user]`, `#[unsafe]`) and parameter types in the target checks: only argument counts are checked.
- Text that overflows the compiler's tables: what is emitted is then not described, only that compiling goes on.
- Function bodies that overlap in the source: the scan for closing braces and the string parser treat an escaped quote
  differently, and since lexing is left out, whether such a source can outgrow the image buffer is not decided here.
- The name in a module header and the module table.
- ELF loading, image relocations, arguments of a process, and the initramfs side of the file system.
- Whether the tables above a user page are open to user mode on the whole walk (`Vmm.Manager.NextTable` says it for each table
  made), the interrupt frame beyond rip and rsp, and the other registers.
- Wait queues, the mutex and processors other than 0.
- Spinlocks: locked regions are single steps. The TLB and cr3 writes.
- Devices, console, graphics, `terrain.c`, the shell and the small tools.
- Unterminated name fields on a disk that the builder did not write.
- Loader.LoadImage: images with relocations are excluded, because the compiler writes none and their processing is not modelled.
- Loader.SpawnImage: images with relocations are excluded, for the same reason.
- Compiler.Orec.CompileSource: says what the text is only for programs that fit the compiler's tables, because the source goes on silently when one overflows.
- Modules.ModuleInit: the calls a module makes through its argument are not modelled, because extern functions are not.
- UserMemory.System.UserAlloc: says nothing after the panic that a missing page for a page table causes, because the machine stops there.
- Straight.UnEffect: says nothing about flags and the other registers, because nothing later depends on them.
- Compiler.Orec.Patch32: what a write behind the full text buffer changes there is not modelled, only recorded as having happened, because the bytes belong to other variables of the compiler.
- Boot.MaxPhys: ends of memory descriptors are integers, because no memory map reaches 2^64, where the source's sums wrap.
- Boot.FindStorage: the same holds for the ends compared here.
- Boot.Start: the same holds for its ranges, and the bitmap is an array of its own, which is what the source has exactly when the chosen place misses the initial file system and the boot record.
- Threads.Scheduler.CreateCall: the failure of the stack allocation is not modelled, because the heap is a separate part here.
- OreFs.RoundTrip: the failure to allocate the temporary buffer is not modelled, for the same reason.
- OreFs.HandleReadsFile: the same holds for its reads.
- OreFs.Vfs.MountDisk: the same holds for the buffer of the entry table.
- OreFs.Vfs.ReadFileAt: the same holds for its buffer.
