# yaosp: verified models of its state machines

yaosp is a small operating system for the i386. Most of it is plumbing; the parts that are hard
to get right are a few self-contained state machines. This project models those and proves what
they are for. Integers are unbounded, so every 32-bit or 64-bit width that the code relies on is
written out, or is a bit-vector; byte strings are sequences of bytes.

- **Module loader** (`ModuleLoader`). A depth-first walk over a dependency graph with a table of
  LOADING and LOADED marks. The reference is a least fixpoint that knows nothing of tables,
  marks or optional edges; the walk answers exactly what the fixpoint says, on every graph.
- **Configuration files** (`ConfigFormat`, `ConfigWriter`, `ConfigReader`, `ConfigRoundTrip`,
  `ConfigSample`, `Bytes`). The converter writes a tree into one file while seeking between a
  half-written block, its children's blocks and the data section. The file has no hole, no byte is
  written twice, and both a plain decoder and the configuration server read the tree back.
- **Pseudo terminals** (`PtyRing`, `PtyProtocol`, `PtyLine`, `PtyRuns`, `PtyReads`, `PtyEnds`,
  `PtyLaws`). Any number of threads read and write both ends of a terminal; locks, the two condition
  queues of each node and the line discipline are a transition system whose steps are the
  statements between which other threads can run. No wake-up is lost, every read gets the oldest
  bytes in order, each flag of the line discipline has its law, and without new calls every run
  comes to a standstill that has a good reason.
- **MD5** (`Md5Spec`, `Md5Transform`, `Md5Stream`, `Md5Laws`). The 64 unrolled operations, the
  buffered update and the two-word counter give the digest of RFC 1321, however the input is cut;
  the functions of section 3.4 are characterised bit by bit and anchored by a test vector.
- **Threads** (`Threads`, `Ids`, `ThreadTable`). Exit, zombies, adoption by init, SIGCHLD and
  wait4, over every interleaving of the sections that run under the scheduler lock.
- **IPC ports** (`IpcProtocol`, `IpcPorts`). A queue and a semaphore that is taken outside the
  queue's mutex; the linked message queue; the port table and the per-process lists through it.
- **Kernel terminal** (`Scrollback`). Bounded rows that are recycled, against an unbounded log.
- **Graphical terminal** (`ControlParser`, `ScreenSpec`, `HistoryBuffer`, `GuiTerminal`, `GuiLaws`). A
  byte-wise parser against the encoding of section 5.4 of ECMA-48; rotated row pointers against a
  page that only grows; and both together, from bytes in any pieces to the rows that are seen.
- **execve** (`ExecveStack`). Arguments and environment laid out downwards in flat memory, and
  read back by following addresses.

Code that updates things in place is a class or a method with loops, proved against a
specification function or a reference; what the system promises is proved of those. Protocols
with blocking calls are transition systems, and their theorems hold in every state of every run.

Where code and documentation or intention differ, the model follows the code and says how far
the intention holds:

- `MD5Update` takes any `unsigned int` length, but its block loop runs past the input for lengths
  just below 2^32 (`OverrunHappens`). `LoopOverruns` says for exactly which lengths; `Update` and
  `HashPieces` exclude those only.
- The terminal parser drops empty parameters, where section 5.4.2 of ECMA-48 gives them their
  default values. `EmptyFieldsVanish` says when this shows, `EmptyFieldShifts` shows a case.
- After -E2BIG the port's semaphore is one short of the queue (`TokenLostAfterTooBig`). It counts
  the queue exactly as long as no call has ended so (`ExactUntilTooBig`; `ExactStep` and
  `ShortfallStep` step by step), and `RunIsFifo` shows that the receiver loses nothing by it.
- SIGCHLD wakes a waiting parent unless it blocks that signal; `ExitWakesExactly` is that
  condition in both directions, and `BlockedWaiterMissesZombie` a run in which it matters.
- A line feed below a scroll region can take the cursor off the screen, where the next character
  fails an assertion (`FedOffFails`). `LeavesScreen` gives the two ways off the screen step by step
  (the other is ESC 8, see `RestoredOff`); `NearUntilFedOff` shows that over a run the line feed is
  the only cause.
- `do_execve` does not check that the arguments fit the stack; `Build` says exactly when its stack
  pointer ends below the region, `LongArgument` shows a case.
- The converter accepts boolean attributes and then fails on them: line 182 calls a method that
  does not exist. `WriteFile` fails exactly when such an attribute, or a value or an offset too
  big for its field, is in the tree (`BooleanFails` is the smallest case).
- The configuration server keeps name lengths in an `int` and names as C strings, so it reads less
  than the converter can write; `ServerRoundTrip`, `VisibleChildren` and `VisibleAttributes` say
  what it does read, `HiddenAttribute` shows a case.
- A kernel terminal's window that the user has scrolled back stays where it is on output, except
  that with all 300 rows used and the window one row behind, the next newline takes it along
  (`WindowJumps`; `HandleNewLine` has the condition).
- `sys_destroy_ipc_port` answers 0 even when it destroyed nothing.

## Model

| member | source | states |
|---|---|---|
| ModuleLoader.LoadableIsFixpoint | source/kernel/src/module.c:173-194 | "loadable" means healthy with all required dependencies loadable, in both directions |
| ModuleLoader.LoadableIsLeast | source/kernel/src/module.c:173-194 | it is inside every set closed under that rule, so it is the least fixpoint |
| ModuleLoader.LoadableHasNoCycle | source/kernel/src/module.c:243-258 | nothing loadable requires itself, however indirectly |
| ModuleLoader.LoadExtends | source/kernel/src/module.c:243-353 | a call leaves older entries alone and adds only LOADED ones: LOADING on return is LOADING on entry, whether it succeeds or is rolled back |
| ModuleLoader.LoadSound | source/kernel/src/module.c:196-364 | LOADED stays closed under required dependencies and within the fixpoint; success leaves the module LOADED |
| ModuleLoader.LoadComplete | source/kernel/src/module.c:196-364 | a loadable module that requires nothing still being loaded does load, whatever happens on its optional edges |
| ModuleLoader.LoadExact | source/kernel/src/module.c:196-364 | at any depth of the recursion a call succeeds if and only if the module is loadable and requires nothing still being loaded |
| ModuleLoader.LoadAnswer | source/kernel/src/module.c:196-364 | for every consistent table the error value of a load is a function of the names under way and the required dependencies alone |
| ModuleLoader.OptionalEdgesAreIrrelevant | source/kernel/src/module.c:321-331 | repositories that differ in optional dependencies only give the same error values, cycles included, whatever is LOADED |
| ModuleLoader.OptionalsLoaded | source/kernel/src/module.c:321-327 | a load that gets as far as its init() has loaded its optional dependencies in order, as long as each is loadable and requires nothing under way |
| ModuleLoader.OptionalsStop | source/kernel/src/module.c:173-194 | nothing after the first that is not so is attempted: the outcome is the same without the rest of the list |
| ModuleLoader.OwnInitLast | source/kernel/src/module.c:311-331 | init() runs last, after all dependencies, if and only if the image is sound and every required dependency would load |
| ModuleLoader.InitsAreNew | source/kernel/src/module.c:243-275 | init() runs only for modules that were not in the table |
| ModuleLoader.LoopErrorMeansCycle | source/kernel/src/module.c:173-264 | with healthy modules a top-level load answers -ELOOP if and only if a required cycle can be reached, and 0 otherwise |
| ModuleLoader.LoadHistory | source/kernel/src/module.c:305-336 | each init() runs when its required dependencies are LOADED and its own module is not, and the calls account for the change of the LOADED set |
| ModuleLoader.NoSecondSuccess | source/kernel/src/module.c:327-336 | in such a history no init() succeeds twice |
| ModuleLoader.TopLevelLoad | source/kernel/src/module.c:366-368 | one top-level load keeps the table consistent, extends the history legally and succeeds exactly for loadable names |
| ModuleLoader.RunCorrect | source/kernel/src/module.c:366-368 | over any sequence of top-level loads every error value depends on the name alone, nothing stays LOADING, and all init() calls form one legal history |
| ModuleLoader.ModuleManager.LoadDependencies | source/kernel/src/module.c:173-194 | the loop that stops at the first failure has the outcome, table and init() calls of the recursive walk |
| ModuleLoader.ModuleManager.LoadModule | source/kernel/src/module.c:196-364 | the in-place load with roll-back refines the recursive walk, and ends on every graph |
| ModuleLoader.ModuleManager.LoadMarked | source/kernel/src/module.c:279-331 | the part that runs while the entry is LOADING refines its share of the walk |
| ModuleLoader.ModuleManager.LoadTopLevel | source/kernel/src/module.c:366-368 | load_module succeeds if and only if the name is in the least fixpoint |
| ConfigWriter.GetSizeRequest | scripts/config_converter.py:38-105 | the accumulating loops compute the size of the block, or of all blocks below a node |
| ConfigWriter.Progress.AppendOwn | scripts/config_converter.py:143-196 | bytes added to the half-written block disturb neither children's blocks nor blobs |
| ConfigWriter.Progress.AppendKids | scripts/config_converter.py:152-160 | a child's blocks, written after a seek, land behind the earlier ones and disturb nothing else |
| ConfigWriter.BinaryWriter.WriteInt32 | scripts/config_converter.py:201-202 | fails exactly for values that need more than 32 bits, else writes four bytes in place |
| ConfigWriter.BinaryWriter.WriteInt64 | scripts/config_converter.py:204-205 | fails exactly for values outside 64 bits, else writes eight bytes in place |
| ConfigWriter.BinaryWriter.WriteChild | scripts/config_converter.py:150-160 | one child: its entry here, its whole subtree there, and back; it succeeds exactly when every field and offset below fits |
| ConfigWriter.BinaryWriter.WriteBlob | scripts/config_converter.py:171-180 | a length and an offset here, the bytes at the end of the data section |
| ConfigWriter.BinaryWriter.WriteAttribute | scripts/config_converter.py:162-196 | one attribute of each type; it fails exactly when a field or the blob's offset is too small or the type is boolean |
| ConfigWriter.BinaryWriter.WriteNode | scripts/config_converter.py:143-196 | it succeeds exactly when every field and offset fits; then exactly the bytes of all blocks of the subtree and of all its blobs are written, each once, and both positions advance by the predicted sizes |
| ConfigWriter.BinaryWriter.WriteFile | scripts/config_converter.py:131-141 | completes exactly when every field and offset fits; then the file has no hole, equals the image of the tree, and the bytes written are as many as the file is long |
| ConfigFormat.Below | scripts/config_converter.py:143-196 | in a file shorter than 2^64 bytes every offset fits |
| ConfigFormat.BooleanFails | scripts/config_converter.py:181-182 | a node with one boolean attribute cannot be written |
| ConfigSample.SampleImage | scripts/config_converter.py:7-20 | one file with a child, a number, a string and a blob, byte by byte |
| ConfigReader.ReadBlockBack | source/servers/configserver/src/loader.cpp:39-193 | reading a stored block finds its entries in order, with the offsets of children and blobs |
| ConfigRoundTrip.TreeBack | scripts/config_converter.py:143-196 | wherever a subtree's blocks and blobs are stored, following counts, lengths and offsets from there rebuilds it |
| ConfigRoundTrip.RoundTrip | scripts/config_converter.py:131-208 | decoding the file of a tree from byte 0 gives exactly that tree, whenever the converter can write it |
| ConfigRoundTrip.WriteAndRead | scripts/config_converter.py:131-208 | converter and decoder together: a file is written exactly when everything fits, and reading it gives the tree, and the server the view of the tree |
| ConfigRoundTrip.ServerRoundTrip | source/servers/configserver/src/loader.cpp:30-65 | what the server loads is the view of the converter's tree |
| ConfigRoundTrip.VisibleChildren | source/servers/configserver/src/node.cpp:24-40 | a child is visible under its C-string name unless a later sibling has the same, and nothing else is visible |
| ConfigRoundTrip.VisibleAttributes | source/servers/configserver/src/node.cpp:28-50 | an attribute is visible under its C-string name, with its value, unless a later one has the same, and nothing else is visible |
| ConfigRoundTrip.HiddenAttribute | source/servers/configserver/src/node.cpp:28-30 | attributes named a and a NUL b: one is visible, with the second's value |
| PtyRing.Ring.PutAppends | source/drivers/char/terminal/pty.c:322-329 | storing appends to the waiting bytes and overwrites none of them |
| PtyRing.Ring.TakeRemoves | source/drivers/char/terminal/pty.c:280-287 | taking removes the oldest byte and nothing else |
| PtyRing.Ring.ModuloPositions | source/drivers/char/terminal/pty.c:280-330 | write_position is (read_position + size) mod buffer_size |
| PtyRing.PtyNode.Drain | source/drivers/char/terminal/pty.c:280-287 | the loop in place on the array: what it hands out followed by what it leaves is what was there |
| PtyRing.PtyNode.Store | source/drivers/char/terminal/pty.c:322-329 | the loop in place on the array: it appends, and stops only when all is stored or the buffer is full |
| PtyProtocol.StepKeepsReaders | source/drivers/char/terminal/pty.c:274-345 | no step of any thread leaves a reader asleep on a non-empty buffer without a lock-holding writer that cannot block and will broadcast |
| PtyProtocol.StepKeepsWriters | source/drivers/char/terminal/pty.c:274-345 | no step leaves a writer asleep on a buffer with room without a reader past its wait that still owes its broadcast |
| PtyProtocol.StepKeepsInv | source/drivers/char/terminal/pty.c:260-345 | every step keeps rings, locks, calls under way and both wake-up properties, on both nodes |
| PtyProtocol.BeginKeepsInv | source/drivers/char/terminal/pty.c:260-345 | so does any thread that enters with a call that respects the lock order |
| PtyProtocol.FinishKeepsInv | source/drivers/char/terminal/pty.c:260-345 | and any that leaves |
| PtyProtocol.NotBothAsleep | source/drivers/char/terminal/pty.c:274-345 | readers and writers of a node never all sleep together: a thread that can move is about to wake those of this very node |
| PtyProtocol.StuckOnlyWithReason | source/drivers/char/terminal/pty.c:260-507 | when nothing can move, sleeping readers face empty buffers, sleeping writers full ones, and lock waiters wait behind an echoing writer of that kind |
| PtyLine.DoWriteMaster | source/drivers/char/terminal/pty.c:350-408 | the loop issues, for each byte, the stores of the output translation, under the master's lock |
| PtyLine.MasterTurn | source/drivers/char/terminal/pty.c:361-402 | one byte of output: at most one store, of its translation |
| PtyLine.SlaveTurn | source/drivers/char/terminal/pty.c:410-502 | one byte of input: its translation to the slave and its echo to the master |
| PtyLine.DoWriteSlave | source/drivers/char/terminal/pty.c:436-507 | the loop over a whole buffer of input |
| PtyLine.ProgramOk | source/drivers/char/terminal/pty.c:260-523 | every call of the driver respects the lock order and stores at most 3 bytes at a time |
| PtyLine.ProgramOutput | source/drivers/char/terminal/pty.c:350-507 | the instructions of a write store exactly the byte-by-byte translation of its data, on both sides |
| PtyLine.WritesCompose | source/drivers/char/terminal/pty.c:350-507 | writing a and then b stores what writing a ++ b stores |
| PtyLine.OnlcrUndone | source/drivers/char/terminal/pty.c:361-383 | with OPOST and ONLCR and neither OCRNL nor ONLRET, deleting the return in front of each newline recovers what was written |
| PtyLine.OnlcrNeeded | source/drivers/char/terminal/pty.c:361-383 | it recovers all data if and only if the flags are those; the default flags are |
| PtyLaws.InputUnchanged | source/drivers/char/terminal/pty.c:436-507 | input is stored unchanged for all data if and only if INLCR, IGNCR, ICRNL and IUCLC are off |
| PtyLaws.EnterIsNewline | source/drivers/char/terminal/pty.c:478-489 | every return is stored as a newline and nothing else changes if and only if ICRNL alone is set, as by default |
| PtyLaws.NewlineIsReturn | source/drivers/char/terminal/pty.c:459-466 | every newline is stored as a return and nothing else changes if and only if INLCR alone is set |
| PtyLaws.ReturnsIgnored | source/drivers/char/terminal/pty.c:478-487 | with IGNCR returns are left out and, without INLCR and IUCLC, the rest is stored as it is |
| PtyLaws.LoweredFirst | source/drivers/char/terminal/pty.c:451-455 | IUCLC is lower-casing before everything else |
| PtyLaws.EchoDefault | source/drivers/char/terminal/pty.c:410-434 | the echo of each ASCII byte under the default flags |
| PtyLaws.EchoFollowsStore | source/drivers/char/terminal/pty.c:448-502 | a byte is stored before it is echoed and echoed before the next is stored, after any part of the loop |
| PtyLaws.EchoRubsOut | source/drivers/char/terminal/pty.c:389-397 | a backspace echoes as backspace, space, backspace under ECHO and ICANON without ECHOCTL |
| PtyLaws.EchoOff | source/drivers/char/terminal/pty.c:415-473 | nothing is echoed if and only if ECHO and ECHONL are off; with ECHONL alone only newlines are |
| PtyLaws.OutputUnchanged | source/drivers/char/terminal/pty.c:350-408 | output is shown unchanged for all data if and only if ONLRET is off and OPOST comes with neither ONLCR nor OCRNL |
| PtyLaws.ReturnIsNewline | source/drivers/char/terminal/pty.c:370-385 | every return is shown as a newline and nothing else changes if and only if OPOST and OCRNL are set and ONLCR and ONLRET are not |
| PtyRuns.RunKeepsInv | source/drivers/char/terminal/pty.c:260-523 | the invariant holds in every state of every run |
| PtyRuns.RunIsSafe | source/drivers/char/terminal/pty.c:260-523 | in every state of every run, bytes delivered followed by bytes buffered are the bytes stored, positions agree modulo the size, and no wake-up is lost |
| PtyRuns.RunEndsExcused | source/drivers/char/terminal/pty.c:260-523 | a run that cannot go on has left every thread with a good reason |
| PtyEnds.QuietRunsAreShort | source/drivers/char/terminal/pty.c:260-523 | from any state of a run, without new calls, only so many more steps are possible: a measure of the work left bounds them |
| PtyEnds.ComesToRest | source/drivers/char/terminal/pty.c:260-523 | so every run can only go on, without new calls, to a standstill, where every thread left has a good reason to wait |
| PtyRuns.OneWriterDelivery | source/drivers/char/terminal/pty.c:350-523 | with one writer at a time, what is delivered and buffered is the translation of all data written, call by call |
| PtyReads.ReadReturns | source/drivers/char/terminal/pty.c:260-307 | a read has got the oldest bytes that were waiting when its wait ended, in order: as many as it asked for, or all |
| PtyReads.ReadsMakeUpDelivered | source/drivers/char/terminal/pty.c:260-307 | in every state of every run, the bytes delivered are what the reads got, in the order in which they ended, and what the read in progress has got |
| Md5Spec.AbsorbPrefix | source/applications/shelltools/md5sum/md5.c:114-151 | later bytes do not change what earlier blocks contributed |
| Md5Laws.EncodeBits | source/applications/shelltools/md5sum/md5.c:277-290 | byte i of an encoded word holds its bits 8i to 8i + 7 |
| Md5Spec.DecodeUndoesEncode | source/applications/shelltools/md5sum/md5.c:277-305 | Decode undoes Encode on any sixteen words |
| Md5Transform.Round1Start | source/applications/shelltools/md5sum/md5.c:192-200 | the unrolled lines with rotating arguments are operations 1 to 8 of section 3.4 of RFC 1321 |
| Md5Transform.Round1Rest | source/applications/shelltools/md5sum/md5.c:201-208 | operations 9 to 16 |
| Md5Transform.Round2Start | source/applications/shelltools/md5sum/md5.c:210-214 | operations 17 to 20 |
| Md5Transform.Round2Rest | source/applications/shelltools/md5sum/md5.c:215-226 | operations 21 to 32 |
| Md5Transform.Round3Start | source/applications/shelltools/md5sum/md5.c:228-236 | operations 33 to 40 |
| Md5Transform.Round3Rest | source/applications/shelltools/md5sum/md5.c:237-244 | operations 41 to 48 |
| Md5Transform.Round4Start | source/applications/shelltools/md5sum/md5.c:246-254 | operations 49 to 56 |
| Md5Transform.Round4Rest | source/applications/shelltools/md5sum/md5.c:255-262 | operations 57 to 64 |
| Md5Transform.DecodeBlock | source/applications/shelltools/md5sum/md5.c:295-305 | the sixteen little-endian words of a block |
| Md5Transform.EncodeWords | source/applications/shelltools/md5sum/md5.c:277-290 | the loop stores the words one after the other, least significant byte first |
| Md5Transform.Transform | source/applications/shelltools/md5sum/md5.c:184-272 | one block is compressed as section 3.4 of RFC 1321 says |
| Md5Laws.BitsOfF | source/applications/shelltools/md5sum/md5.c:64 | bit by bit, F chooses y or z by x |
| Md5Laws.BitsOfG | source/applications/shelltools/md5sum/md5.c:65 | G chooses x or y by z |
| Md5Laws.BitsOfH | source/applications/shelltools/md5sum/md5.c:66 | H is the parity |
| Md5Laws.BitsOfI | source/applications/shelltools/md5sum/md5.c:67 | I is y xor (x or not z) |
| Md5Laws.RotateBits | source/applications/shelltools/md5sum/md5.c:69-71 | rotating by n moves bit k to (k + n) modulo 32 |
| Md5Laws.RotateBack | source/applications/shelltools/md5sum/md5.c:69-71 | rotating by n and then by 32 - n gives the word back |
| Md5Laws.EmptyDigest | source/applications/shelltools/md5sum/md5.c:99-272 | the empty message has the digest of appendix A.5 of RFC 1321 |
| Md5Stream.IndexFromCount | source/applications/shelltools/md5sum/md5.c:121-122 | the low count word alone gives the number of buffered bytes |
| Md5Stream.CounterStep | source/applications/shelltools/md5sum/md5.c:124-128 | the compare-and-carry keeps the two words at 8 times the length modulo 2^64, for every length below 2^32 |
| Md5Stream.CountIsLength | source/applications/shelltools/md5sum/md5.c:163-164 | the encoded words are the length field of section 3.2 of RFC 1321 |
| Md5Stream.EncodeCount | source/applications/shelltools/md5sum/md5.c:163-164 | a word of the counter, stored least significant byte first |
| Md5Stream.PaddingLength | source/applications/shelltools/md5sum/md5.c:166-170 | the padding is as long as section 3.1 of RFC 1321 asks |
| Md5Stream.LoopOverruns | source/applications/shelltools/md5sum/md5.c:139-140 | the block loop runs past the input if and only if the unsigned sum in its guard wraps around |
| Md5Stream.OverrunHappens | source/applications/shelltools/md5sum/md5.c:139-140 | one buffered byte and 2^32 - 1 more: the loop runs past the input |
| Md5Stream.Context.constructor | source/applications/shelltools/md5sum/md5.c:99-108 | a context for the empty message |
| Md5Stream.Context.TransformBlocks | source/applications/shelltools/md5sum/md5.c:139-140 | the block loop absorbs all complete blocks of the input |
| Md5Stream.Context.Update | source/applications/shelltools/md5sum/md5.c:114-151 | the state is the fold over complete blocks, the buffer the tail, the counter the length, of the old message followed by the input |
| Md5Stream.Context.Final | source/applications/shelltools/md5sum/md5.c:156-180 | the digest of RFC 1321 of the whole message, and a wiped context |
| Md5Stream.HashPieces | source/applications/shelltools/md5sum/md5.c:99-180 | however a message is cut into updates that do not overrun, the digest is the one-shot digest |
| Md5Stream.Md5sum | source/applications/shelltools/md5sum/md5sum.c:31-81 | reading a file block by block gives its digest |
| Threads.ExitWakes | source/kernel/src/thread.c:207-260 | a thread asleep in wait4(-1) that SIGCHLD would wake is awake after its child's exit, and init after it has inherited children |
| Threads.ExitWakesExactly | source/kernel/src/signal.c:97-126 | an exit wakes its parent out of wait4 if and only if that is init or does not block SIGCHLD |
| Threads.BlockedWaiterMissesZombie | source/kernel/src/process.c:346-395 | a run that ends with a thread asleep in wait4(-1) beside a zombie child, having blocked SIGCHLD |
| Threads.ExitKeepsInv | source/kernel/src/thread.c:192-260 | thread_exit keeps parents, waiters and exit statuses in order |
| Threads.ReapKeepsInv | source/kernel/src/process.c:274-383 | removing a zombie leaves no dangling parent and hands out its status once |
| Threads.ApplyKeepsInv | source/kernel/src/process.c:311-396 | so does every other step: creation, scheduling, sleeping, signals, masks, wait4 |
| Threads.RunKeepsInv | source/kernel/src/thread.c:156-260 | the invariant holds in every reachable state |
| Threads.RunIsSafe | source/kernel/src/process.c:346-396 | in every reachable state no thread that SIGCHLD would wake sleeps in wait4(-1) with a zombie child, none sleeps in wait4 that asked not to or has an unblocked signal pending, every parent id is -1 or a live thread, and every exit status was handed out exactly once or still waits |
| Threads.ParentAlwaysFound | source/kernel/src/thread.c:224-233 | the "parent not found" branch is dead code |
| Threads.NewMask | source/kernel/src/signal.c:170-204 | which signals are blocked afterwards, in both directions; SIGKILL and SIGSTOP never become blocked |
| Threads.MasksUndone | source/kernel/src/signal.c:170-204 | setting the old mask undoes any change, unblocking undoes blocking and the other way round |
| Threads.SignalEffect | source/kernel/src/signal.c:97-126 | what a signal adds, whom it wakes, in both directions, and that nothing else changes |
| Threads.TurnEnds | source/kernel/src/process.c:346-395 | a turn of wait4 ends the call if and only if there is a zombie to reap, WNOHANG was given or an unblocked signal is pending; otherwise it sleeps |
| Ids.FindUnused | source/kernel/src/thread.c:156-168 | the id search ends with an unused id wherever the counter stands, as long as there is one |
| ThreadTable.ThreadTable.InsertThread | source/kernel/src/thread.c:156-168 | the thread gets an unused id and no entry is overwritten |
| ThreadTable.ThreadTable.DoSendSignal | source/kernel/src/signal.c:97-126 | in place, the signalled table of the lifecycle |
| ThreadTable.ThreadTable.ReparentChildren | source/kernel/src/thread.c:192-205 | in any iteration order exactly the children get init for a parent, and the flag says whether there were any |
| ThreadTable.ThreadTable.ThreadExit | source/kernel/src/thread.c:207-260 | in place, the exit step of the lifecycle |
| ThreadTable.ThreadTable.FindZombieChild | source/kernel/src/process.c:253-272 | in any iteration order a zombie child is found if there is one |
| ThreadTable.ThreadTable.FindAndRemoveZombieChild | source/kernel/src/process.c:274-309 | it misses no zombie it is asked for and removes exactly the one it returns |
| ThreadTable.ThreadTable.Wait4Check | source/kernel/src/process.c:318-344 | -ECHILD exactly when there is nothing to wait for, in any iteration order |
| ThreadTable.ThreadTable.Wait4Turn | source/kernel/src/process.c:346-395 | in place, one turn of the wait4 loop is the wait step of the lifecycle; it returns a zombie's id and exit code, or 0 under WNOHANG, or -EINTR, or sleeps, each exactly when it should |
| IpcProtocol.ApplyKeepsInv | source/kernel/src/ipc.c:217-427 | senders and the receiver, with the semaphore taken outside the mutex, keep queue, count and history in agreement |
| IpcProtocol.RunIsFifo | source/kernel/src/ipc.c:217-427 | in every run, received followed by queued is sent; no call ends with -ENOENT; a receiver that waits on a non-empty queue finds a token |
| IpcProtocol.HeadComesNext | source/kernel/src/ipc.c:217-427 | from any state of a run on, the head of the queue is the next message received, however late |
| IpcProtocol.AnnouncedComesNext | source/kernel/src/ipc.c:270-427 | a step that ends a call with a peek's description or -E2BIG tells of the head message, and in every later state of the run that message is still the head or was the next one received |
| IpcProtocol.CallOutcome | source/kernel/src/ipc.c:270-427 | what a call returns, whether it went straight to the queue or waited first, and that only a successful receive changes the queue |
| IpcProtocol.ShortfallStep | source/kernel/src/ipc.c:287-327 | by how much each step changes the tokens missing from the semaphore: one more for -E2BIG after taking a token, one less for a call that completes without one, none otherwise |
| IpcProtocol.ExactStep | source/kernel/src/ipc.c:322-327 | an exact count stays exact if and only if the step is not a receive whose buffer is smaller than the head message |
| IpcProtocol.ExactUntilTooBig | source/kernel/src/ipc.c:217-427 | the semaphore has counted the queue in all states so far if and only if no call has ended with -E2BIG |
| IpcProtocol.TokenLostAfterTooBig | source/kernel/src/ipc.c:305-327 | a run in which -E2BIG leaves the semaphore one short of the queue |
| IpcPorts.MessageQueue.Enqueue | source/kernel/src/ipc.c:245-257 | linking at the tail appends; both assertions hold |
| IpcPorts.MessageQueue.Dequeue | source/kernel/src/ipc.c:317-333 | the head if it fits, with the tail cleared when it was the last; otherwise nothing changes |
| IpcPorts.MessageQueue.Look | source/kernel/src/ipc.c:401-414 | code and size of the head |
| IpcPorts.Port.Perform | source/kernel/src/ipc.c:217-427 | linked queue and semaphore in memory: each section under the mutex is the step of the protocol, with its result |
| IpcPorts.Drive | source/kernel/src/ipc.c:217-427 | a port in memory goes through any run of the protocol, and its calls end as the run says |
| IpcPorts.ChainCut | source/kernel/src/ipc.c:174-208 | bypassing a port leaves a list that ends and holds exactly the others |
| IpcPorts.PortTable.CreatePort | source/kernel/src/ipc.c:85-138 | an unused id, in the table and at the head of its owner's list |
| IpcPorts.PortTable.Unlink | source/kernel/src/ipc.c:184-206 | the search finds the port and relinks its owner's list around it, touching no other list |
| IpcPorts.PortTable.DestroyPort | source/kernel/src/ipc.c:174-215 | the port goes if and only if it exists and belongs to the caller; every list still holds exactly its owner's ports |
| IpcPorts.PortTable.DestroyProcessPorts | source/kernel/src/ipc.c:154-172 | all ports of the process go and no other's |
| IpcPorts.PerformAll | source/kernel/src/ipc.c:37-215 | after any sequence of process starts, port creations, destructions and process ends every port has a live owner, every list holds exactly its owner's ports, and each operation had its effect on the owners and no other |
| Scrollback.Terminal.constructor | source/drivers/char/terminal/terminal.c:902-950 | one empty line, the rest of the rows unused |
| Scrollback.Terminal.AdvanceRow | source/drivers/char/terminal/terminal.c:154-180 | moving the rows down and recycling the oldest buffer still shows the last 300 lines, and no two rows share a buffer |
| Scrollback.Terminal.HandleNewLine | source/drivers/char/terminal/terminal.c:154-189 | the log gains a line; the cursor is on the last row; a window that shows it goes on showing it, and one that the user has scrolled back stays, but for one case |
| Scrollback.Terminal.EnsureBuffer | source/drivers/char/terminal/terminal.c:191-214 | a new buffer changes nothing that is shown |
| Scrollback.Terminal.WriteCell | source/drivers/char/terminal/terminal.c:226-236 | the current line is overwritten or extended and no other line changes, whatever the recycled buffer held |
| Scrollback.Terminal.PutChar | source/drivers/char/terminal/terminal.c:191-242 | one character on the unbounded log, wrapped at the width |
| Scrollback.Terminal.ParseData | source/drivers/char/terminal/terminal.c:299-352 | for every stream, up to an escape or a backspace that climbs to the row above, the rows show the last lines, at most 300, of the unbounded log |
| Scrollback.Session | source/drivers/char/terminal/terminal.c:106-352 | however output and user scrolling mix, up to such a byte the rows show the end of the log of all output; scrolling loses nothing |
| Scrollback.TextFillsLines | source/drivers/char/terminal/terminal.c:191-242 | printable text fills lines of the screen's width: put together they are the text, cell by cell |
| Scrollback.NewlineAndReturn | source/drivers/char/terminal/terminal.c:299-352 | a newline ends the line and keeps the others, a return goes back and keeps all cells |
| Scrollback.WindowJumps | source/drivers/char/terminal/terminal.c:174-189 | with 300 lines and the window scrolled back by one, the next newline takes it along |
| Scrollback.Terminal.Scroll | source/drivers/char/terminal/terminal.c:106-131 | the window moves within bounds and everything else stays |
| HistoryBuffer.TerminalLine.Clear | source/applications/gui/terminal/terminalbuffer.cpp:43-52 | exactly the cells from start to end become blank |
| HistoryBuffer.TerminalBuffer.constructor | source/applications/gui/terminal/terminalbuffer.cpp:69-75 | a blank page whose rows are all different objects |
| HistoryBuffer.TerminalBuffer.LineAt | source/applications/gui/terminal/terminalbuffer.cpp:102-112 | history and screen are seen as one page |
| HistoryBuffer.TerminalBuffer.SaveRows | source/applications/gui/terminal/terminalbuffer.cpp:261-271 | copies of the leading rows are appended to the history, as new objects |
| HistoryBuffer.TerminalBuffer.RotateRegion | source/applications/gui/terminal/terminalbuffer.cpp:283-299 | the pointer loops permute the row objects; the region shows its rows moved up and blank ones below |
| HistoryBuffer.TerminalBuffer.ScrollBy | source/applications/gui/terminal/terminalbuffer.cpp:255-303 | in memory, the scrolled screen for every region and count; rows are permuted, history objects stay |
| HistoryBuffer.TerminalBuffer.InsertLf | source/applications/gui/terminal/terminalbuffer.cpp:170-176 | in memory, the line feed of the screen, for every region |
| HistoryBuffer.TerminalBuffer.InsertBackSpace | source/applications/gui/terminal/terminalbuffer.cpp:178-187 | the previous cell, but not above the screen |
| HistoryBuffer.TerminalBuffer.InsertCharacter | source/applications/gui/terminal/terminalbuffer.cpp:189-207 | in memory, one cell written with the wrap at the width, for every region; no other row changes |
| HistoryBuffer.TerminalBuffer.InsertText | source/applications/gui/terminal/terminalparser.cpp:49-79 | in memory, one byte outside control sequences; it fails exactly when a character meets a cursor off the screen |
| HistoryBuffer.TerminalBuffer.MoveCursorTo | source/applications/gui/terminal/terminalbuffer.cpp:217-227 | moves exactly when the assertions hold |
| HistoryBuffer.TerminalBuffer.EraseRows | source/applications/gui/terminal/terminalbuffer.cpp:305-325 | in memory, exactly the given rows become blank with the current attribute |
| HistoryBuffer.TerminalBuffer.EraseCells | source/applications/gui/terminal/terminalbuffer.cpp:327-333 | in memory, exactly the given cells of the cursor's row become blank |
| ScreenSpec.ScrollGrowsPage | source/applications/gui/terminal/terminalbuffer.cpp:255-303 | over the whole screen, scrolling up appends min(count, height) blank rows to history and screen together and changes nothing else |
| ScreenSpec.TextOnPage | source/applications/gui/terminal/terminalparser.cpp:49-79 | over the whole screen, text never fails and is text on a page that only grows at its end |
| ScreenSpec.LineFeedLeavesScreen | source/applications/gui/terminal/terminalbuffer.cpp:170-176 | a line feed takes the cursor off the screen if and only if it is on the last row and the region ends above it |
| GuiTerminal.HistoryNeverChanges | source/applications/gui/terminal/terminalbuffer.cpp:255-303 | rows that have left the screen never change in any run, with any control sequences and scroll regions |
| GuiTerminal.LeavesScreen | source/applications/gui/terminal/terminalparser.cpp:49-302 | from a cursor on the screen, an item takes it off if and only if it feeds a line below a smaller region or restores a cursor that was saved off the screen |
| GuiTerminal.NearUntilFedOff | source/applications/gui/terminal/terminalparser.cpp:49-302 | over every run, cursor and saved cursor have been on the screen all along if and only if no item has fed a line off it |
| GuiTerminal.FedOffFails | source/applications/gui/terminal/terminalbuffer.cpp:170-192 | on a 2x2 terminal: a region of the first row, the cursor on the second, a line feed, and the next character fails |
| GuiTerminal.RestoredOff | source/applications/gui/terminal/terminalbuffer.cpp:237-245 | the same cursor saved, moved home and restored: no text is needed to leave the screen |
| GuiTerminal.PlainRun | source/applications/gui/terminal/terminalparser.cpp:49-302 | over the whole screen, any stream of text, colours and scrolling succeeds and shows the page it makes |
| GuiTerminal.UpdateMode | source/applications/gui/terminal/terminalparser.cpp:303-354 | the loop over the parameters folds them into the attribute |
| GuiTerminal.HandleControl | source/applications/gui/terminal/terminalparser.cpp:130-255 | in memory, each control sequence; it fails exactly when an assertion fails or a row outside the screen is touched |
| GuiTerminal.HandleItem | source/applications/gui/terminal/terminalparser.cpp:49-302 | in memory, each recognised item |
| GuiTerminal.PerformItems | source/applications/gui/terminal/terminalparser.cpp:27-43 | any stream of items, up to the first that fails; rows are permuted and history objects stay |
| GuiTerminal.Show | source/applications/gui/terminal/terminalparser.cpp:27-43 | bytes in any pieces, through parser and buffer: what can be seen is what the items in the bytes make, and it fails exactly when they do |
| GuiTerminal.EncodedPage | source/applications/gui/terminal/terminalparser.cpp:27-302 | an encoded stream of text, colours and scrolling shows the page that its items make, however it is cut |
| GuiLaws.ModeResets | source/applications/gui/terminal/terminalparser.cpp:303-320 | no parameter, or 0, gives white on black, not bold |
| GuiLaws.ModeColours | source/applications/gui/terminal/terminalparser.cpp:332-348 | 30 to 37 and 40 to 47 choose a colour by its number, 39 and 49 the default; the rest stays |
| GuiLaws.ModeBoldAndReverse | source/applications/gui/terminal/terminalparser.cpp:321-331 | bold on and off; exchanging the colours twice is nothing |
| GuiLaws.ModeIgnores | source/applications/gui/terminal/terminalparser.cpp:349-353 | any other parameter is ignored |
| GuiLaws.ModesCompose | source/applications/gui/terminal/terminalparser.cpp:311-353 | parameters act one after the other |
| GuiLaws.CursorAddressed | source/applications/gui/terminal/terminalparser.cpp:204-216 | H and f put the cursor on a row and a column and do nothing else; 0 keeps one, and off the screen fails |
| GuiLaws.RowAndColumn | source/applications/gui/terminal/terminalparser.cpp:218-228 | d and G, in either order, are H |
| GuiLaws.CursorUp | source/applications/gui/terminal/terminalparser.cpp:148-155 | A moves up exactly when the rows are there |
| GuiLaws.Arity | source/applications/gui/terminal/terminalparser.cpp:148-236 | the assertions on the number of parameters |
| GuiLaws.Motions | source/applications/gui/terminal/terminalparser.cpp:57-78 | return, line feed and the codes that do nothing |
| GuiLaws.BackspaceReturns | source/applications/gui/terminal/terminalbuffer.cpp:178-207 | a backspace takes back the motion of a character, over the end of a row as well |
| GuiLaws.OthersIgnored | source/applications/gui/terminal/terminalparser.cpp:81-255 | any other sequence does nothing |
| GuiLaws.CharacterGoes | source/applications/gui/terminal/terminalbuffer.cpp:189-207 | a character goes to the cell under the cursor and to no other |
| GuiLaws.WordStands | source/applications/gui/terminal/terminalbuffer.cpp:189-207 | a word that fits the row stands where it was typed |
| GuiLaws.ErasedCells | source/applications/gui/terminal/terminalparser.cpp:157-196 | cell by cell, what J and K erase and what they leave |
| GuiLaws.ErasingMovesOnlyHome | source/applications/gui/terminal/terminalparser.cpp:157-196 | only J with 2 moves the cursor, and nothing else changes |
| GuiLaws.RegionSet | source/applications/gui/terminal/terminalparser.cpp:230-234 | r sets the region exactly when it is on the screen |
| GuiLaws.RegionScrolls | source/applications/gui/terminal/terminalbuffer.cpp:255-303 | row by row, what scrolling a region shows, and what it saves |
| GuiLaws.RegionScrollsBack | source/applications/gui/terminal/terminalbuffer.cpp:276-302 | a negative count blanks the region or does nothing |
| GuiLaws.SavedComesBack | source/applications/gui/terminal/terminalparser.cpp:97-107 | ESC 8 gives back what the last ESC 7 saved, whatever came in between |
| GuiLaws.CursorKeys | source/applications/gui/terminal/terminalparser.cpp:271-294 | what switches the alternate cursor keys |
| ControlParser.TerminalParser.HandleData | source/applications/gui/terminal/terminalparser.cpp:27-43 | the loop over a buffer is the fold of the byte steps |
| ControlParser.FeedSplit | source/applications/gui/terminal/terminalparser.cpp:27-43 | however a stream is cut, the parser ends in the same state |
| ControlParser.ControlExact | source/applications/gui/terminal/terminalparser.cpp:130-146 | an arbitrary control sequence delivers the numbers of its non-empty fields, in order, in 32 bits |
| ControlParser.SampleSequence | source/applications/gui/terminal/terminalparser.cpp:27-146 | the bytes of ESC [ 12 ; 3 H, one by one |
| ControlParser.WrapLaw | source/applications/gui/terminal/terminalparser.cpp:137-140 | a parameter is kept modulo 2^32, and as it is below 2^31 |
| ControlParser.EmptyFieldsVanish | source/applications/gui/terminal/terminalparser.cpp:130-146 | there is one parameter a field if and only if no field is empty |
| ControlParser.EmptyFieldShifts | source/applications/gui/terminal/terminalparser.cpp:130-146 | ESC [ ; 5 H delivers 5 as its first parameter |
| ControlParser.DecimalRoundTrip | source/applications/gui/terminal/terminalparser.cpp:130-143 | accumulating the decimal digits of a number gives the number |
| ControlParser.ItemRoundTrip | source/applications/gui/terminal/terminalparser.cpp:49-302 | any text byte, escape, control or private sequence is recognised as what was written, with parameters below 2^31 intact |
| ControlParser.StreamRoundTrip | source/applications/gui/terminal/terminalparser.cpp:27-302 | any stream of them comes back as it was written |
| ControlParser.ParsePieces | source/applications/gui/terminal/terminalparser.cpp:27-43 | however the stream is cut into reads |
| ExecveStack.WordUnique | source/kernel/src/loader.c:433-443 | memory holds at most one word at an address |
| ExecveStack.ArrayUnique | source/kernel/src/loader.c:411-417 | memory holds at most one null-terminated array of strings at an address, so reading back is exact |
| ExecveStack.Stack.CopyStrings | source/kernel/src/loader.c:201-218 | the strings lie one below the other, with these addresses, and nothing else changes |
| ExecveStack.Stack.PushArrays | source/kernel/src/loader.c:400-417 | strings and pointer arrays, without gap or overlap |
| ExecveStack.Stack.PushStart | source/kernel/src/loader.c:433-443 | the four words that the start-up code finds |
| ExecveStack.Stack.Build | source/kernel/src/loader.c:393-447 | following the words at the stack pointer gives exactly argv and envp; what is stored tiles the bytes up to the thread-local data, which is untouched like the rest; the stack pointer stays in the stack's region if and only if the sizes fit it |
| ExecveStack.LongArgument | source/kernel/src/loader.c:393-447 | an argument as long as the stack does not fit it, so the stack pointer would end below the region |

## Left out

- Allocation failures: kmalloc and the objects of the kernel are taken to succeed.
- Concurrent module loads: the LOADING mark then also answers -ELOOP to an unrelated caller. Module files are fixed answers per name, and unloading is not modelled.
- XML parsing, and text that is not one byte a character, in the converter.
- ConfigWriter.BinaryWriter.WriteFile: seeking and writing the file itself never fail, so limits of the file system are not modelled.
- ConfigRoundTrip.RoundTrip: the decoder's nesting is bounded by the length of the file, which no tree that the converter writes exceeds; a damaged file can.
- ConfigRoundTrip.ServerRoundTrip: what the server makes of damaged or truncated files is only modelled as far as a read that fails.
- Select requests in pty.c, directory reading and ioctl; a call carries the termios flags that are in force throughout it.
- pty_read and pty_do_write as sequential methods: they block, so they are transition systems; their copying loops are also given in place (PtyRing.PtyNode). Waiting on a condition releases the lock and sleeps in one step, and a broadcast wakes every sleeper.
- Md5Stream.Context.Update: lengths for which the block loop would run past the input are excluded, by the exact condition of LoopOverruns.
- The scheduler, processor time, process groups, rusage, the teardown of processes and memory, and the window of sys_kill_thread between finding a thread and signalling it.
- Threads.RunIsSafe: says nothing of waiters that block SIGCHLD (they can miss a zombie, see ExitWakesExactly) or that wait for a given pid.
- IpcProtocol.RunIsFifo: is about a live port with one receiver; several receivers, and destruction of the port during a receive, are not modelled. Named ports are left out.
- IpcPorts.PortTable.CreatePort: proc_next and port_list are maps from ids to ids rather than pointers between objects, so freeing is not modelled; the message queue does use linked objects.
- Scrollback.Terminal.ParseData: stops at an escape sequence, or at a backspace that climbs to the row above, after which the cursor may be on any row. Switching terminals and drawing are left out.
- Scrollback.Session: stops there too.
- Scrollback.Terminal.AdvanceRow: the lines array is a sequence and a cell buffer is known by its address in a map, not by a pointer; colours are constant during a stream.
- HistoryBuffer.TerminalBuffer.constructor: setSize is modelled only as the constructor uses it; listeners and the mutex are left out.
- GuiTerminal.Show: the items of a read are performed after it has been parsed, not in between; the parser does not look at the screen.
- ControlParser.ControlExact: overflow of a parameter, undefined in C++, wraps around in the model.
- ExecveStack.Stack.Build: is stated for memory that is mapped down to the new stack pointer. ELF and interpreter loading and the lookup of constructor symbols are left out, their results are parameters.
- Drivers, the GUI toolkit, network tools, the shell and the build tool: plumbing, or easy facts only.
