# A verified model of the driver's compiler tables, queues and session state

This project models parts of the MUD driver in Dafny and proves properties of them. The LPC
compiler's passes and tables, the cross-thread queues, the schedulers and the session state are
each modelled twice where the driver works in place: as the loops, arrays and linked blocks of the
source, and as functions on values, with the first proved equal to the second. The theorems about
whole runs are stated on the second.

| module | what it models |
|---|---|
| `TransferLocals`, `TransferLocalsProof`, `TransferLocalsMarks`, `Optimizer` | the dying-variable pass of `generate.cc`: parse trees and their execution, the pass as a walk, its preservation of meaning, an order-free description of its result, and the in-place walk over `last_local_refs` |
| `Wakeup` | the task queue of `IOThread` and `HeartbeatThread`, as a step relation over any number of posters, and the loop thread's own code |
| `Programs`, `FunctionLookup`, `Overloads`, `FunctionTable`, `FunctionIndices`, `CompilerTables`, `StatementHistory` | the function index space: inherit offsets, the walk to a definition and the search for a name, overload resolution, copying and defining functions, the final index maps and flags, the tables updated statement by statement, and what the statements alone say of each name |
| `ProgStrings`, `ProgStringTable` | the reference-counted program string table and its arrays |
| `SwitchCases` | switch statements from the labels to the jump: `prepare_cases`, the emitted table, and the search of `f_switch` |
| `SharedStrings`, `SharedStringTable` | string interning: runs of make, ref and free, and the move-to-front chains |
| `TickQueue`, `Heartbeats`, `ObjectScan` | the schedulers: game-tick events, the heartbeat queues of a thread, the batched scan over all objects |
| `Snooping`, `InputBuffer`, `InputLines`, `InputEditing`, `InteractiveText`, `SshWriter` | session state: who snoops whom, the line buffer (as text, what it does to a stream of lines, what the erasing keys do, and as the array it is), output over SSH |
| `LruCache`, `Utf8`, `Base64` | the cache against recency, truncation against RFC 3629, and encoding against RFC 4648 |

Things the proofs found out about the code:

- `TransferLocalsProof.CopyingPreserves`, `TransferLocalsProof.UnsafePreservedIff`: the comment over
  the dying-variable pass says a transfer clears the local; the interpreter at this commit copies it
  (src/vm/internal/base/interpret.cc:2466-2480), so that transfers change nothing in any tree. If a
  transfer did clear the local, a read before `catch(x = f())` would be given up on account of an
  assignment that need not happen. `TransferLocalsProof.Preservation` holds whatever a transfer leaves,
  as long as the walk makes none inside a `catch`.
- `Wakeup.LostWakeup`: `post` gives up on a write error other than a full socket; then a task can wait
  for ever, exactly in the states `Wakeup.ErrorHarmlessIff` excludes.
- `Programs.TilesIffNoneShort`: `rule_inheritence` recognises a parent's initialiser by its first
  character and `copy_functions` by its whole name, so a parent with default arguments and no
  initialised variable makes the index ranges overlap if another parent follows.
- `SwitchCases.MeantIffAnyCase`, `SwitchCases.MeantIff`: with no case left, which ranges the grammar
  drops can bring about, `f_switch` searches the code behind its empty table, and takes the default
  for every value only if that code happens to read like a jump to it.
- `SwitchCases.UnreportedIff`, `SwitchCases.EqualLabelsUnreported`: overlapping cases are reported only
  if the switch has a range; without one, equal labels pass and either may be taken.
- `Heartbeats.PeriodIsInterval`: the interval is kept in 16 bits and respected from 1 to 32768 only.
- `Snooping.ExecAcyclicIff`: `exec()` can make an object snoop itself, and then the walk against
  snooping loops does not end.
- `InputLines.RoomIff`, `InputLines.OverflowRunsFragmentIff`: input that ends just at the end of the
  buffer loses its last byte, and an overflow leaves CMD_IN_BUF set, so that with a command pending
  before it the unfinished rest of the input is run as one.
- `InputLines.SplitPair`, `InputLines.SplitAddsLineIff`: a pair of terminators that is extracted after
  its first half counts twice, unless the text that follows pairs the second half up again.
- `InputEditing.LineIsEditedIff`, `InputEditing.ErasesTakenLine`: the erasing keys stop at the start of the
  buffer and not at that of the line, so behind lines already taken they reach into those, and what is
  typed next is lost.
- `SshWriter.NothingLost`, `SshWriter.IdleRun`: an empty message that the channel refuses arms the write
  event with nothing to write, and it stays so, through flushes and through writes that are taken
  whole, until some bytes have to wait.
- `ObjectScan.VisitedIffNotMissed`, `ObjectScan.DanglesInRunIff`: the scan saves the next object before it
  processes one. If that is destructed, the scan goes on in the list of destructed objects and what was
  still to come is left out of the round; if those are freed first, the pointer is in neither list and
  the scan would read a freed object. `ObjectScan.MissesThree` and `ObjectScan.DanglesAtTwo` are such
  rounds.

## Model

| member | source | states |
|---|---|---|
| TransferLocalsProof.Preservation | src/compiler/internal/generate.cc:53-281 | for every function body in whose catches the walk makes no transfer, every input, host and loop bound, the optimised code has the same outcome and executes the same opcodes on the same operands in the same order, whatever a transfer leaves in its local |
| TransferLocalsProof.CopyingPreserves | src/vm/internal/base/interpret.cc:2466-2480 | on a machine whose transfers copy, as the driver's does, making any reads of any tree transfers changes neither outcome, frame nor trace |
| TransferLocalsProof.UnsafePreservedIff | src/compiler/internal/generate.cc:21-26 | a body with an assignment inside catch that, where the assigned call fails, returns the same after the pass iff a transfer leaves its local as it is; if a transfer cleared the local it would not |
| TransferLocalsProof.VisitKeeps | src/compiler/internal/generate.cc:53-231 | the walk's table and its transfers only ever name reads of the tree, and a read recorded is not yet a transfer |
| TransferLocalsProof.VisitNested | src/compiler/internal/generate.cc:123-224 | inside loops and conditionals the walk makes no transfer and only forgets |
| TransferLocalsMarks.TransfersDescribed | src/compiler/internal/generate.cc:103-113 | a read becomes a transfer iff it is outside loops and conditionals, and the next mention of its local in the order of the walk is a direct assignment outside loops and conditionals, or there is none (void assignments inside them do not count as mentions) |
| Optimizer.FunctionOptimizer.Optimize | src/compiler/internal/generate.cc:53-231 | the in-place walk changes table and opcodes as the walk on values does and restores the flags |
| Optimizer.FunctionOptimizer.EndFunction | src/compiler/internal/generate.cc:258-269 | every recorded read becomes a transfer |
| Optimizer.GenerateFunction | src/compiler/internal/generate.cc:271-281 | afterwards exactly the reads that the preservation theorem speaks of carry the transfer opcode, and none without the pragma |
| Wakeup.NoLostWakeup | src/base/internal/io_thread.cc:110-164 | in every interleaving without write errors a queued task has a byte in the socket, a poster that has yet to write, or a thread that has yet to swap; when all are idle everything pushed was executed in order |
| Wakeup.FifoAlways | src/base/internal/heartbeat_thread.cc:146-180 | executed tasks, the rest of the batch and the queue are together the sequence of pushes, always |
| Wakeup.ErrorHarmlessIff | src/base/internal/heartbeat_thread.cc:110-127 | after a write is given up on an error, every schedule that pushes nothing more executes all tasks iff nothing was queued, a byte was in the socket, another poster had yet to write, or the thread had yet to swap |
| Wakeup.StrandedForGood | src/base/internal/heartbeat_thread.cc:110-127 | otherwise no such schedule ever executes what is queued |
| Wakeup.LostWakeup | src/base/internal/heartbeat_thread.cc:110-127 | a run that reaches an unattended task |
| Wakeup.NeverStuck | src/base/internal/io_thread.cc:124-164 | while a task is unexecuted some step of the posters or the thread is possible |
| Wakeup.AllTasksExecuted | src/base/internal/io_thread.cc:110-164 | once pushing stops every schedule ends, and has then executed every task in the order of the pushes |
| Wakeup.TaskThread.Post | src/base/internal/heartbeat_thread.cc:104-127 | the task is at the end of the queue and the protocol's invariant holds, whether the byte fits or is dropped |
| Wakeup.TaskThread.ProcessPendingTasks | src/base/internal/heartbeat_thread.cc:146-180 | the queue at the swap is executed in order; what the tasks post to their own thread stays queued |
| Programs.TilesIffNoneShort | src/compiler/internal/grammar_rules.cc:57-72 | the parents' segments are disjoint and cover the inherited indices iff no parent but the last ends in a special function that is not its initialiser |
| FunctionLookup.DefaultArgumentsOverlap | src/compiler/internal/grammar_rules.cc:64-69 | two well-formed parents that share an index |
| Programs.ParentUnique | src/vm/internal/base/program.cc:103-119 | also with empty parents exactly one parent's segment holds an inherited index: the last that starts at or before it |
| FunctionLookup.SearchParent | src/compiler/internal/compiler.cc:783-796 | the binary search finds the parent whose segment holds the index |
| FunctionLookup.EntryHasName | src/vm/internal/base/program.cc:95-123 | the walk ends, in bounds, at a definition of the name the index stands for |
| FunctionLookup.FindFuncEntry | src/vm/internal/base/program.cc:95-123 | the loop ends and gives the place of the walk, a function of that name |
| FunctionLookup.MatchingIs | src/compiler/internal/compiler.cc:906-952 | nothing is found iff no path up the inherit lists leads, past programs without the name, to a function of it with code; otherwise the path latest in the order of the inherit statements decides: private iff its function or an inherit on it is, else that function at the sum of the offsets |
| FunctionLookup.MatchingInvertsWalk | src/compiler/internal/compiler.cc:906-952 | an index found for a name has that name, and unless its entry is an alias the walk from it ends at the very function found |
| Overloads.WinnerIsMax | src/compiler/internal/compiler.cc:592-607 | the winner is the maximum of the documented order, ties going to the later candidate |
| Overloads.ChoiceIsWinner | src/compiler/internal/compiler.cc:592-743 | after any sequence of inherited copies, prototypes and definitions of a name the current choice is that maximum |
| FunctionTable.CopyKeeps | src/compiler/internal/compiler.cc:757-809 | copying a parent's function keeps the tables consistent: chains hold only functions of their name, all copied functions are in them, a removed entry is one that is not the choice, an alias is the choice only until its target is copied |
| FunctionTable.CompleteHasNoAlias | src/compiler/internal/compiler.cc:2167-2170 | when all parents are copied no alias is the choice, so "Aliasing difficulties" cannot happen |
| FunctionTable.DefineKeeps | src/compiler/internal/compiler.cc:1035-1170 | a definition or prototype keeps the same invariant |
| FunctionIndices.InvertOrder | src/compiler/internal/compiler.cc:2123-2129 | comp_sorted_funcs inverts func_index_map, in both directions |
| FunctionIndices.CountKept | src/compiler/internal/compiler.cc:2131-2134 | the functions kept are exactly those before the first removed one |
| FunctionIndices.FillFlags | src/compiler/internal/compiler.cc:2159-2195 | for every name the entry at the choice's final index says, as the choice does, whether it is inherited, has no code and is private; every other final index of the name is an alias of that |
| FunctionIndices.CompiledIsOk | src/compiler/internal/compiler.cc:2100-2371 | the compiled program satisfies what the walk needs of it; each index carries the flags of the choice for its name or is an alias that leads there in one hop |
| FunctionIndices.RemapKeepsFunction | src/compiler/internal/compiler.cc:2372-2391 | the remapped index of a default argument names the same function and is never the 0 that means "none" |
| FunctionIndices.HandleFunctions | src/compiler/internal/compiler.cc:2100-2198 | the passes together give such a program, whose functions can be found, with an entry for every name that has the flags of its choice |
| CompilerTables.AnyProgramIsOk | src/compiler/internal/compiler.cc:2100-2371 | for every sequence of inherit statements, prototypes and definitions the result is such a program, unless a parent other than the last is short |
| CompilerTables.ChoiceIsMax | src/compiler/internal/compiler.cc:592-743 | after any such sequence no candidate for a name ranks above the choice that its indices lead to |
| StatementHistory.ChainIsOfEvents | src/compiler/internal/compiler.cc:592-743 | the chain of a name is the one that the copies, prototypes and definitions of that name make, in the order of the statements |
| StatementHistory.ChoiceWinsHistory | src/compiler/internal/compiler.cc:592-743 | so the choice is the winner among all of them, ties going to the later |
| StatementHistory.ChoiceSays | src/compiler/internal/compiler.cc:592-743 | from the statements alone: there is a choice iff the name is declared or inherited; it has code iff the name is defined or inherited with code; it is own iff defined, or declared and not inherited with code |
| StatementHistory.VerdictIs | src/compiler/internal/compiler.cc:1043-1145 | a definition is a redeclaration iff a statement before defines the name, a prototype is ignored iff one does or a function with code is inherited, all else is accepted, and no aliasing is ever inconsistent |
| StatementHistory.OwnIsDecided | src/compiler/internal/compiler.cc:1035-1185 | an own choice has the kind and the privacy of the last declaration that no definition precedes |
| StatementHistory.InheritsAre | src/compiler/internal/grammar_rules.cc:57-77 | the parents are the inherit statements in order, with their programs and modifiers |
| StatementHistory.FlagsSay | src/compiler/internal/compiler.cc:2159-2195 | in the compiled program every index leads in at most one hop to a function that, by the statements alone, has no code iff no statement defines the name and none inherits it with code, is own iff the choice is, and is private iff the deciding declaration is |
| StatementHistory.EveryNameHasIndex | src/compiler/internal/compiler.cc:2100-2198 | every name that is declared or inherited has an index of its own in it |
| CompilerTables.Compiler.RuleInheritence | src/compiler/internal/grammar_rules.cc:57-77 | the tables change as the functions above say and stay complete |
| CompilerTables.Compiler.CopyFunctions | src/compiler/internal/compiler.cc:757-809 | the loop enters every function of the parent but its initialiser |
| CompilerTables.Compiler.DefineNewFunction | src/compiler/internal/compiler.cc:1035-1170 | an accepted declaration is at the head of its name's chain with its kind and privacy and has a kept entry of the name, and no other chain changes; a refused or ignored one changes nothing; completeness is kept |
| CompilerTables.Compiler.Finish | src/compiler/internal/compiler.cc:2100-2371 | the tables as they stand give a program as in `StatementHistory.FlagsSay`, whose functions can be found |
| ProgStrings.CountIsBalance | src/compiler/internal/compiler.cc:1436-1563 | over any run the count of a string is its stores minus its frees |
| ProgStrings.IndexStable | src/compiler/internal/compiler.cc:1436-1563 | a string keeps its index until it is last freed |
| ProgStrings.NoLongerThanPeak | src/compiler/internal/compiler.cc:1472-1500 | freed slots are used again: the table is never longer than the number of strings that were stored at one time |
| ProgStrings.StepChangesOne | src/compiler/internal/compiler.cc:1472-1563 | a new string takes the least free slot, a last free leaves the slot free or shortens the table by its last one, and no other slot changes |
| ProgStringTable.StringTable.Store | src/compiler/internal/compiler.cc:1436-1510 | the arrays represent the stored table: each chain holds the live entries of its hash, a tag bit is set iff its chain is not empty, freed_string is the least free slot or -1 |
| ProgStringTable.StringTable.Free | src/compiler/internal/compiler.cc:1512-1563 | the same for freeing; an index out of range changes nothing |
| ProgStringTable.LinkFront | src/compiler/internal/compiler.cc:1463-1508 | putting a slot at the head of its chain keeps all chains, heads and tags right |
| ProgStringTable.Unlink | src/compiler/internal/compiler.cc:1526-1552 | so does taking one out |
| SwitchCases.DisjointIffApart | src/compiler/internal/compiler.cc:2690-2745 | comparing neighbours of the sorted cases decides whether any two overlap |
| SwitchCases.PrepareCases | src/compiler/internal/compiler.cc:2649-2752 | an overlap is reported iff the switch has a range and two cases share a value; it becomes direct iff it has no range and consecutive keys |
| SwitchCases.UnreportedIff | src/compiler/internal/compiler.cc:2690-2735 | two cases share a value unreported iff the switch has no range and two neighbouring labels are equal |
| SwitchCases.EqualLabelsUnreported | src/compiler/internal/compiler.cc:2690-2735 | the same label twice: nothing is reported and either address is a meaning of the switch |
| SwitchCases.BuildTable | src/compiler/internal/icode.cc:687-719 | the table has the entries of all cases in order and the size class is the power of two below its size |
| SwitchCases.Compile | src/compiler/internal/icode.cc:679-719 | the code is a lookup table or a sorted table that represents exactly the cases, of a size class the search knows; an overlap is reported as by `PrepareCases` |
| SwitchCases.EntryHit | src/compiler/internal/icode.cc:627-719 | an entry with the searched key leads to a case that covers it |
| SwitchCases.EntryMiss | src/compiler/internal/icode.cc:627-719 | between two entries a value belongs to the range that starts with the first, or to no case |
| SwitchCases.Search | src/packages/ops/ops.cc:1053-1152 | the search in a table of any size ends and finds the entry of the value or the gap it lies in, and with no table gives what lies behind it |
| SwitchCases.DirectIsMeant | src/packages/ops/ops.cc:1031-1050 | the lookup table gives the meant address for every value, though the subtraction can wrap around |
| SwitchCases.FSwitch | src/packages/ops/ops.cc:978-1152 | from the compiled code every value jumps to a case that covers it, or to the default if none does |
| SwitchCases.MeantIsUnique | src/compiler/internal/compiler.cc:2690-2735 | with disjoint cases that is one address |
| SwitchCases.MeantIffAnyCase | src/packages/ops/ops.cc:1053-1152 | the switch does what it means whatever code follows iff it has a case |
| SwitchCases.MeantIff | src/packages/ops/ops.cc:1053-1152 | given that code, it does so for every value iff it has a case or the first entry read from the code leads to the default |
| SharedStrings.SameBlockIffEqual | src/base/internal/stralloc.cc:190-231 | after any run two results still held are the same block iff their contents are equal |
| SharedStrings.RemovedWithLastReference | src/base/internal/stralloc.cc:233-305 | after any run a string is in the table iff a reference is held or 65536 of them once were; the count is the number held, or 0 after the wrap |
| SharedStrings.AllReturned | src/base/internal/stralloc.cc:255-305 | when every reference has been returned the table holds only the strings whose count has wrapped |
| SharedStrings.WornStays | src/base/internal/stralloc.cc:265-271 | a string whose count has wrapped keeps its block for ever |
| SharedStringTable.StringTable.constructor | src/base/internal/stralloc.cc:96-112 | the size is at least the configured one and less than twice it, the table empty |
| SharedStringTable.StringTable.FindBlock | src/base/internal/stralloc.cc:122-146 | the block of the contents is found iff it exists and is then first in its chain; every chain keeps each string of its hash once |
| SharedStringTable.StringTable.MakeSharedString | src/base/internal/stralloc.cc:190-231 | the known block with its count raised, or a fresh one with count 1; nothing else changes |
| SharedStringTable.StringTable.RefString | src/base/internal/stralloc.cc:233-248 | the count is raised unless it has wrapped |
| SharedStringTable.StringTable.FreeString | src/base/internal/stralloc.cc:255-307 | the count is lowered, the block is unlinked at the last reference, and a wrapped count is left alone |
| TickQueue.EventsOnTime | src/backend.cc:119-171 | in every run events are taken exactly at their tick, at most once, in order of tick and then of insertion, also those added by callbacks; what is not taken waits for a tick that is not over |
| TickQueue.NothingLeftBehind | src/backend.cc:119-165 | when a tick's processing returns every queued key is in the future |
| TickQueue.RunsUnlessCancelled | src/backend.cc:147-152 | an event that is taken runs iff it was not cancelled before |
| TickQueue.Backend.CallTickEvents | src/backend.cc:119-154 | the loop performs a run in which each valid event that is taken is followed at once by its callback, the callbacks in the order of the script, and nothing else happens but extracting; it ends with nothing eligible, or before an event for which the script has no callback left |
| TickQueue.Backend.OnGameTick | src/backend.cc:156-163 | the same, and then, with nothing eligible left, the tick is counted |
| TickQueue.Backend.AddGametickEvent | src/backend.cc:167-171 | the event is queued behind all that are due by then and before all others, and the queue stays in order |
| Heartbeats.RunKeepsOnce | src/base/internal/heartbeat_thread.cc:200-240 | in any run of modify, remove and cycles an object has at most one entry in the two queues |
| Heartbeats.CalledEveryNthCycle | src/base/internal/heartbeat_thread.cc:230-300 | after registering, an object that is left alone is called once in every n-th cycle with the gate open and in no other; a closed gate does not disturb the count |
| Heartbeats.PeriodIsInterval | src/base/internal/heartbeat_thread.cc:200-220 | n is the interval asked for iff that is from 1 to 32768 |
| Heartbeats.NotCalledAfterRemoval | src/base/internal/heartbeat_thread.cc:200-300 | once removed, or found off or destructed by a cycle, an object is in neither queue and called in no cycle until it registers again |
| Heartbeats.HeartbeatThread.ProcessHeartbeats | src/base/internal/heartbeat_thread.cc:230-300 | a cycle ends, keeps the live entries in order with their counts advanced, and calls those that are due |
| Heartbeats.HeartbeatThread.ModifyHeartbeat | src/base/internal/heartbeat_thread.cc:209-220 | the object's entry in either queue is changed, or one is added |
| Heartbeats.HeartbeatThread.RemoveHeartbeat | src/base/internal/heartbeat_thread.cc:204-207 | every entry of the object is cleared in both queues |
| ObjectScan.RoundVisitsSurvivors | src/backend.cc:346-462 | however a round is cut into batches and whatever is destructed, created or freed meanwhile, if no saved object is destructed every object that survives the round is visited, and none twice |
| ObjectScan.VisitedIffNotMissed | src/backend.cc:356-462 | in a round that comes to its end a survivor is visited iff no saved object was destructed while it was still to come |
| ObjectScan.LosingMissesRest | src/backend.cc:356-369 | if the saved object is destructed nothing behind it is visited in that round |
| ObjectScan.LostSkipsAllDead | src/backend.cc:360-369 | the scan then goes through that object and all that were destructed before it, and the round is over |
| ObjectScan.NewNotVisited | src/backend.cc:356-462 | whatever is created during a round is not visited in it |
| ObjectScan.DanglesIff | src/vm/internal/vm.cc:137-150 | a single step takes the saved pointer out of both lists iff it frees the destructed objects while the saved one is among them |
| ObjectScan.DanglesInRunIff | src/backend.cc:356-462 | a round, however it runs, comes to read a freed object iff the destructed objects were freed at a time when the saved one was among them |
| ObjectScan.DanglesAtTwo | src/vm/internal/vm.cc:137-150 | such a round over three objects |
| ObjectScan.MissesThree | src/backend.cc:356-369 | a round over three objects that ends without visiting one that was alive throughout |
| ObjectScan.DanglingStays | src/vm/internal/vm.cc:137-150 | from then on the lists define no further step of the scan |
| Snooping.StepKeeps | src/comm.cc:1737-1794 | every operation keeps: only users are snooped, a snooper has one victim, O_SNOOP is set iff it has one |
| Snooping.StepAcyclic | src/comm.cc:1768-1794 | snooping, leaving and destructing make no cycle |
| Snooping.DestructedLeavesNoTrace | src/vm/internal/simulate.cc:945-1077 | a destructed object is no user, snoops nobody and is not snooped, who snooped it snoops nobody, and all other links stay |
| Snooping.ExecTakesOver | src/packages/core/interactive.cc:4-28 | exec() puts one object in the other's place among the users and under its snooper; whom they snoop themselves does not change |
| Snooping.LinkAcyclicIff | src/comm.cc:1768-1779 | a new snooper keeps the relation acyclic iff the victim is not above it |
| Snooping.ExecAcyclicIff | src/packages/core/interactive.cc:4-28 | exec() keeps it acyclic iff the object that takes the connection over is not at the top of the chain of its snoopers |
| Snooping.ExecMakesLoop | src/packages/core/interactive.cc:4-28 | a run after which an object snoops itself and the walk goes round for ever |
| Snooping.RunKeeps | src/comm.cc:1737-1794 | over every run from the start both invariants hold, the second without such an exec() |
| Snooping.Server.WouldLoop | src/comm.cc:1768-1779 | the walk ends, and says whether the victim is above the snooper |
| Snooping.Server.NewSetSnoop | src/comm.cc:1737-1794 | done iff nobody concerned is destructed and the victim, if one is given, is a user that is not above the snooper; then the snooper snoops that victim only, or nobody, a former snooper of the victim nobody, and all other links stay; otherwise nothing changes; both invariants are kept |
| Snooping.Server.QuerySnooping | src/comm.cc:1813-1824 | an object with O_SNOOP has a victim and it is found |
| Snooping.Server.RemoveInteractive | src/comm.cc:1390-1440 | the user is gone from its place in the list and is not snooped, its snooper loses its flag, and all other users, links and flags stay; invariants kept |
| InputLines.CommandsAreLines | src/comm.cc:996-1226 | for any chunks and any interleaving of feeding and extracting that splits no pair of terminators, the commands are the lines of the input in order, whether they end in CR, LF or both, and CMD_IN_BUF says whether another is complete |
| InputLines.RoomIff | src/comm.cc:1024-1046 | input is kept whole iff it fits behind the text with a byte to spare, or does not fit there but does after compaction |
| InputLines.OverflowDrops | src/comm.cc:1039-1043 | an overflow, by data of any length, drops what was pending and the new input through its first terminator; the flag stays |
| InputLines.OverflowRunsFragmentIff | src/comm.cc:1039-1043 | what an overflow leaves is extracted whole, unterminated, iff a command was pending before and it is not empty and has no terminator |
| InputLines.SplitPair | src/comm.cc:1175-1182 | if the line is extracted between the halves of its pair the second half stays pending, otherwise it does not |
| InputLines.SplitAddsLineIff | src/comm.cc:1175-1182 | that is one more, empty, command, except exactly where the following terminators pair it up again |
| InputLines.CommandStopsAtNul | src/comm.cc:996-1226 | of any pending text: NULs in front are passed over, the command is the first line up to its first NUL, and CMD_IN_BUF then says whether another line is complete |
| InputEditing.TypedIsEdited | src/comm.cc:1095-1124 | the erasing keys take away the nearest character before them that is left, down to the start of the buffer, and a stripped ESC is a blank, as read from the last key to the first |
| InputEditing.LineIsEditedIff | src/comm.cc:1103-1111 | keys edit the pending line, whatever lies before it, iff they never erase past its start, or nothing is left behind the point they reach |
| InputEditing.ErasesTakenLine | src/comm.cc:1103-1111 | a line taken, one character typed ahead, two erasing keys and a character: that character is lost |
| InteractiveText.Interactive.OnUserInput | src/comm.cc:1095-1124 | the array holds the text with each byte appended, substituted or taken back |
| InteractiveText.Interactive.CleanBuf | src/comm.cc:996-1022 | leading NULs and the command to be skipped are passed over, an empty buffer is reset |
| InteractiveText.Interactive.OnUserWebsocketReceived | src/comm.cc:1024-1053 | compaction, overflow, input and flag as in the functions the theorems are about |
| InteractiveText.Interactive.GetUserCommand | src/comm.cc:1150-1216 | the same for extraction |
| SshWriter.ConvertedNoBare | src/net/ssh.cc:400-419 | conversion leaves no bare newline |
| SshWriter.ConvertedIdempotent | src/net/ssh.cc:400-419 | converting twice is converting once |
| SshWriter.ConvertedReadsSame | src/net/ssh.cc:400-419 | with pairs read as newlines the message is unchanged |
| SshWriter.Convert | src/net/ssh.cc:400-419 | the loop computes that conversion |
| SshWriter.NothingLost | src/net/ssh.cc:240-448 | under any partial or refused writes, the parts of its offers that the channel takes and the bytes waiting are together the messages written since the connection was ready, converted; the write event is armed while something waits; it is also armed with nothing waiting iff an empty message was refused and nothing has had to wait since |
| SshWriter.ChannelTakes | src/net/ssh.cc:240-448 | in every run the bytes counted as sent are the parts of the offers that the channel took, and the messages counted are those written once ready |
| SshWriter.IdleRun | src/net/ssh.cc:240-448 | a run that gets there, and an empty flush that leaves it so |
| SshWriter.StepKeeps | src/net/ssh.cc:421-447 | from every state, the event is armed with nothing waiting after a step iff the step is an empty message refused, or it was so before and the step leaves nothing waiting |
| SshWriter.Connection.ConnWrite | src/net/ssh.cc:397-448 | writing to the connection is the step of the model, for every answer of the channel |
| SshWriter.Connection.FlushWrites | src/net/ssh.cc:240-255 | so is flushing |
| LruCache.HoldsTheLatest | src/base/internal/lru_cache.h:41-97 | after any run the list is the last `capacity` different keys inserted afresh or hit, in that order |
| LruCache.HitIsStored | src/base/internal/lru_cache.h:56-84 | a hit returns the value with which the key last became present |
| LruCache.Lru.Insert | src/base/internal/lru_cache.h:41-54 | list and map keep the same keys, within capacity, each stored iterator at its own key; a present key keeps value and place, otherwise the last one goes |
| LruCache.Lru.Get | src/base/internal/lru_cache.h:56-84 | value and new order of a lookup, by the stored iterator |
| Utf8.TruncatesPartial | src/base/internal/strutils.cc:242-274 | for every string of bytes: what is cut off is the partial character it ends in, if there is one, and nothing otherwise |
| Utf8.TruncatesToLongest | src/base/internal/strutils.cc:270-274 | on a prefix of a well-formed string that is the longest well-formed prefix, at most three bytes shorter; whole strings are unchanged |
| Utf8.PartialCompletes | src/base/internal/strutils.cc:211-229 | a partial character is a proper start of a character of section 4 of RFC 3629 |
| Utf8.Lead3Table | src/base/internal/strutils.cc:177-190 | the first bit table is the rule for the second byte after E0 to EF |
| Utf8.Lead4Table | src/base/internal/strutils.cc:192-210 | the second is that after F0 to F4 |
| Utf8.U8Strncpy | src/base/internal/strutils.cc:163-170 | the destination holds the truncated text and zeros, and nothing behind is touched |
| Base64.RoundTrip | src/ofile.cc:24-96 | decoding inverts encoding for every sequence of bytes |
| Base64.CharsAreAlphabet | src/ofile.cc:17-20 | the digits are written with the alphabet of Table 1 in section 4 of RFC 4648 |
| Base64.EncodedShape | src/ofile.cc:24-58 | the output has 4 * ceil(n / 3) characters, letters and then 2, 1 or no padding signs, as in section 4 of RFC 4648 |
| Base64.SameBits | src/ofile.cc:35-38 | the four digits of a group are its three bytes, read as 24 bits |
| Base64.JoinInvertsSplit | src/ofile.cc:72-74 | the three bytes of a group come back from its digits |
| Base64.FillIgnored | src/ofile.cc:81-93 | what fills up the last group does not reach the output |
| Base64.Base64Encode | src/ofile.cc:24-58 | the loop over groups computes that encoding |
| Base64.Base64Decode | src/ofile.cc:60-96 | the loop reads up to the first other character and computes that decoding |

## Left out

- TransferLocalsProof.Preservation: asks that the walk makes no transfer inside a `catch`. That is sufficient and not necessary where transfers do not copy: a transfer made there does no harm if the local is not read again after an error, which depends on what the host answers. Where transfers copy no condition is needed (`CopyingPreserves`).
- TransferLocalsProof.Preservation: `ref` arguments, `foreach` heads, the while-dec and loop-cond opcodes and running out of evaluation cost are not modelled. Node kinds whose children are only walked in order are one constructor, `Op`; loops are cut off after a number of turns, which is the same in both runs.
- Wakeup.NoLostWakeup: excludes write errors other than a full or interrupted one (see `Wakeup.ErrorHarmlessIff`); start-up, shutdown and tasks dropped because a thread never becomes ready are left out.
- SharedStrings.SameBlockIffEqual: strings over the maximum length are left out, because they are cut after they are looked up; so is concurrent use, and the byte statistics.
- ProgStringTable.StringTable.Store: indices and counts do not wrap at 16 bits; that equal contents are equal pointers is the shared string table's part; the hash is any function to 0..255.
- FunctionIndices.HandleFunctions: what qsort does is taken as its specification, and the second sort key, an address, can be anything; of the flags only those the index code looks at are kept, and DECL_PRIVATE only for own functions; 16-bit indices do not wrap.
- CompilerTables.Compiler.DefineNewFunction: types, argument counts, nomask errors and warnings are left out; they do not change the tables.
- SwitchCases.FSwitch: string switches search the same table by address and are left out, as are `pc`, 16-bit distances over the limit the compiler checks, and key + 1 at the largest integer.
- TickQueue.EventsOnTime: delays are not negative and ticks do not wrap at 64 bits; wall-clock events and the libevent timer are left out.
- Heartbeats.CalledEveryNthCycle: what a call does to the object is seen only through its flags; evaluation, command giver and error contexts are left out.
- ObjectScan.RoundVisitsSurvivors: the object lists are values and the scan is a step relation, so the relinking of list pointers in place is not captured; a batch can end at any step, the batch size and memory-pressure counters are not modelled, and an object's address is not used again within a round.
- Snooping.Server.NewSetSnoop: an object and its connection are one identity, and the fields `snooped_by` and the flags are a map and sets over them; connections that are logged in are the only ones.
- InputLines.CommandsAreLines: for text without NUL, backspace and DEL (and ESC, if the configuration strips it; `CommandStopsAtNul` and `InputEditing` say what those do), in line mode, with room in the buffer and no pair of terminators split; single-character mode and telnet are left out.
- InputEditing.LineIsEditedIff: for keys that fit behind the text, in line mode.
- SshWriter.NothingLost: the connection has its event; reading, the SSH state machine and errors of the channel are left out.
- LruCache.Lru.Insert: capacity 0, where eviction takes from an empty list, is left out.
- Utf8.TruncatesPartial: U8_IS_SINGLE, U8_IS_LEAD and U8_IS_TRAIL are taken from ICU, which is not part of this model; lengths are below 2^31.
- The object graph, evaluation of LPC, sockets, TLS, files and signals, save files, the preprocessor, display width and break iterators, and telnet negotiation are not modelled.
