# Verified models of the ns-3 tree's own algorithms

The scripts and tools that come with the simulator contain a few algorithms that stand on their own. This
project models them in Dafny, in the form the originals have (loops over changing tables, stacks and queues,
classes whose fields change), and proves what they are for.

- **Cycles and dependency order** (`bindings/python/topsort.py`, with `is_rotated` of `rad_util.py`).
  `FindCycles` searches with a stack of paths and skips roots it has met before; it returns exactly one
  representative of every rotation class of simple cycles, and terminates by a weight of
  (d + 1)^(n - length) per stacked path. `Topsort` and `TopsortLevelsCore` consume two tables in place; what
  they return, and what they leave in the tables when they raise, is characterised by reachability from cycles
  and by longest incoming walks. The three functions are proved to agree.
- **The parallel test dispatcher** (`test.py`). Main thread, workers, two FIFO queues, sentinels and an
  interrupt flag form a transition system. Its invariant, the absence of deadlock, the length of every run and
  the exact exit status are proved over every interleaving; `RunTests` runs it under an arbitrary scheduler.
- **The shell pipeline** (`waf-tools/shellcmd.py`). What the parser raises on, and what it makes of all other
  token lists, is stated on the tokens; its results are exactly the well-formed pipelines, and it undoes printing.
  The destructive loop of `run` is the right-nested reading of the and-or list, and gives each process the words,
  the environment, the files and the directory that the line says.
  That reading is compared with the one of sections 2.7, 2.9.2 and 2.9.3 of the POSIX Shell Command Language,
  where redirections take effect in the order in which they are written, lists associate to the left, and a `cd`
  is a list element or the end of a pipe like any other command. On the command lines that POSIX divides into the
  same words, assignments and operators as the parser, the two agree in every world if and only if no `>` stands
  behind a `2>&1` of the same command, no pipe leads into a `cd` or into a command with an input of its own, no
  `&&` or `||` behind a command is followed anywhere by one of the other kind (the `&&` behind a `cd` counts only
  as the later one), and no command behind a `cd` opens a relative path.
- **Configuration paths** (`utils/print-introspected-doxygen.cc`). Backtracking over two member stacks records
  exactly one path for every simple walk along the links that the tables of the registry give.
- **Unified diffs** (`utils/check-style.py`). Reading back what was written gives the same patches if and only if
  no removed line starts with `-- ` and no added line with `++ `.
- **Bits and permutations** (`bindings/python/rad_util.py`), and the **resumable writer** of
  `examples/tcp/tcp-large-transfer.cc`.

One file holds one module. `Sequences.dfy` and `Results.dfy` are shared; `Graphs.dfy` holds walks, cycles and
rotations.

How the originals are rendered: a generator is a method that returns the list of what it yields; a Python
dictionary is iterated in an arbitrary order; an exception is an `Err`. The commands, nodes and jobs, of which
each has one owner at a time, are values; the queues and the worker positions are the fields of a state. The
exit codes of processes are given by a `World`, which may depend on everything that has been started. Text is
a sequence of characters, patterns are those of Python 3.

Where the code and its documentation differ, the model follows the code:

- `topsort.py` lines 109 and 227 say that everything left over has a child. What holds is that everything left
  over has a parent that is left over (`DependencySort.LeftoverFromCycle`).
- `print-introspected-doxygen.cc` says of `Uniquefy` that the container is modified in place (line 1147); it takes
  its container by value (line 1161), so `Gather` leaves the output as `DoGather` made it.
- `shellcmd.py` runs its lines in another way than a POSIX shell, which its operators are taken from. For lines
  divided in the same way `ShellPosixLine.LineIsPosixIff` has the exact condition; `OutOfOrderExample` and the
  examples of `ShellPosix` show six ways to differ.
- `shellcmd.py` looks through all exit codes of a group (lines 208-211) and so always returns the last one
  (`ShellSemantics.GroupCodeIsLast`).

## Model

| member | source | states |
|---|---|---|
| RotationTest.IsRotated | bindings/python/rad_util.py:761-775 | true exactly when some rotation of the first sequence is the second; raises exactly on two empty sequences |
| Graphs.RotationTransitive | bindings/python/rad_util.py:736-736 | being a rotation is transitive, so that cycles fall into rotation classes |
| CycleSearch.FindCycles | bindings/python/topsort.py:343-385 | every result is a simple cycle closed by an edge, no two are rotations of each other, every simple cycle of the graph is a rotation of a result |
| CycleSearch.OneRepresentative | bindings/python/topsort.py:369-378 | each rotation class has exactly one representative among the results |
| CycleSearch.SearchFrom | bindings/python/topsort.py:351-385 | when the stack is empty, every cycle reachable from the root, or from anything visited on the way, has been reported |
| CycleSearch.ExpandPath | bindings/python/topsort.py:362-385 | one pop-and-extend step keeps the search complete and makes the stack lighter |
| CycleSearch.LassoAround | bindings/python/topsort.py:367-369 | every cycle below a root is closed by the last item of some simple path from that root, which is how the search meets it |
| CycleSearch.SettledBelow | bindings/python/topsort.py:346-349 | skipping a root that was visited from an earlier root loses no cycle |
| CycleSearch.ChildrenWeighLess | bindings/python/topsort.py:352-385 | up to d paths one longer weigh less than the path they replace, for paths among n nodes of out-degree at most d |
| DependencySort.BuildTables | bindings/python/topsort.py:77-90 | the tables hold the elements of the pairs, each with its number of parents, and each parent's children in order |
| DependencySort.Topsort | bindings/python/topsort.py:77-112 | each sortable element once, parents first; raises exactly when the pairs have a cycle, with the elements downstream of a cycle left in the tables, and nothing else |
| DependencySort.DiscountChild | bindings/python/topsort.py:100-103 | knocking down one child keeps the answer free of repeats, in order, and in step with the counts |
| DependencySort.SortedNotFromCycle | bindings/python/topsort.py:93-106 | nothing that is sorted is downstream of a cycle |
| DependencySort.LeftoverFromCycle | bindings/python/topsort.py:108-111 | everything left over has a parent that is left over, and is downstream of a cycle |
| DependencySort.InDegreeWithout | bindings/python/topsort.py:98-106 | taking any one parent out lowers each count by exactly that parent's mentions |
| LevelSort.TopsortLevelsCore | bindings/python/topsort.py:203-232 | for any two tables: each level is all that is due after the levels before it; KeyError for a released item with a child that is not, or no longer, in the table, namely the first such child in the order in which items are released, else CycleError if anything is left, with the tables as they are. If the counts are those of the child lists: level k holds exactly the items whose longest incoming walk has k edges, the levels hold exactly what is not downstream of a cycle, and there is no KeyError, but a CycleError exactly when there is a cycle |
| LevelSort.TopsortLevels | bindings/python/topsort.py:157-172 | the same for a pair list; the levels together hold exactly what topsort sorts |
| LevelSort.LevelRemoved | bindings/python/topsort.py:217-224 | after k + 1 levels the tables hold exactly what a walk of k + 1 edges reaches |
| LevelSort.FromCycleWalks | bindings/python/topsort.py:226-229 | walks of every length lead to what is downstream of a cycle |
| LevelSort.SortersAgree | bindings/python/topsort.py:108-112 | topsort raises exactly when topsort_levels does and exactly when find_cycles finds a cycle |
| Dispatcher.InvStep | test.py:929-997 | every step of main, of a worker or of the signal, which can come between a worker's check and its launch, keeps each job in exactly one place, sentinels behind all jobs, job fields and counters in agreement |
| DispatcherRuns.NoDeadlock | test.py:1648-1650 | as long as main has not finished, main or some worker can move |
| DispatcherRuns.Progress | test.py:929-997 | every step lowers a natural number |
| DispatcherRuns.EveryExecution | test.py:1336-1366 | in every interleaving the invariant holds, and a run has at most seven steps a job, three a worker and one interrupt |
| DispatcherRuns.MaximalExecution | test.py:1786-1787 | a run that no thread can continue has joined every worker and collected every job |
| DispatcherRuns.FinishedIsClean | test.py:1865-1868 | at the end the queues are empty, each worker took one sentinel, each job was counted once, and the status is 0 exactly when every job came back skipped or with code 0 |
| DispatcherRuns.SentinelTaken | test.py:1622-1629 | no sentinel is taken while a job is undispatched or in the input queue |
| DispatcherInterrupt.AfterInterrupt | test.py:943-978 | a job whose check sees the interrupt comes back marked and unrun; from the interrupt on no job passes its check, and only a job that has passed it is launched, by the worker that holds it |
| DispatcherInterrupt.InterruptedEnd | test.py:943-978 | at the end of a run exactly those jobs were run that had been launched or had passed their check when the interrupt came, and exactly those turned back that no worker had checked |
| DispatcherInterrupt.LateLaunches | test.py:943-978 | after the interrupt at most one job a worker is launched |
| DispatcherInterrupt.LateLaunchExample | test.py:556-558 | an execution in which a job is launched after the interrupt |
| DispatcherInterrupt.WithoutInterrupt | test.py:1663-1668 | without an interrupt exactly the jobs not skipped are run, and the status is 0 exactly when all the codes that they carry are 0 |
| DispatcherRuns.TallyTotals | test.py:1641-1677 | each returned job is counted in exactly one counter; passed and skipped make up the total exactly when all are good |
| DispatcherRuns.RecordedCode | test.py:963-983 | in every interleaving a job whose process has ended carries the code of its only process; before, none has ended |
| DispatcherRuns.ProcessCodes | test.py:963-983 | at the end of every execution each job that was run had exactly one process, and carries its code; the status is 0 exactly when no job was turned back and all processes ended with code 0 |
| DispatcherRuns.FinalCounters | test.py:1663-1677 | each counter is the number of the jobs that earn its verdict |
| DispatcherOrder.TakenInOrder | test.py:929-930 | a worker takes the job that was dispatched first of those still in the queue |
| DispatcherOrder.CollectedInOrder | test.py:1649-1650 | jobs are collected in the order in which the workers put them back |
| DispatcherRuns.RunTests | test.py:1336-1868 | under any scheduler: termination, the exact status over the codes that the processes returned, every counter, one count per job, and a job is run exactly if it was neither skipped nor turned back |
| ShellSyntax.ParsedIsWellFormed | waf-tools/shellcmd.py:136-201 | whatever the parser accepts alternates operands and operators, pipes stdout exactly before a pipe, and puts only `&&` behind a non-final `cd` |
| ShellSyntax.ParsePrinted | waf-tools/shellcmd.py:121-201 | parsing the printed tokens of a well-formed pipeline gives the pipeline back |
| ShellSyntax.ParserRange | waf-tools/shellcmd.py:121-201 | the parser's results are exactly the well-formed pipelines |
| ShellSyntax.ParseIsStable | waf-tools/shellcmd.py:121-201 | printing what was parsed and parsing again changes nothing |
| ShellSyntax.EnvMatchPrinted | waf-tools/shellcmd.py:24-24 | the assignment pattern reads a printed name and value back |
| ShellSyntax.EnvMatchIff | waf-tools/shellcmd.py:24-24 | the assignment pattern matches a name, an equals sign and a value, with at most a newline behind, and nothing else |
| ShellParseErrors.RaisesIff | waf-tools/shellcmd.py:136-201 | the parser raises exactly when some operand has a second input, output, error file or directory, a pipe behind an output file, or an assignment in front of `cd`, or when the tokens end where an operand has to begin |
| ShellMeaning.ParseMeaning | waf-tools/shellcmd.py:136-201 | the accepted pipeline has, operand by operand, the words, assignments, files and directory that stand in the tokens of that operand, in whatever order, with the operators between them |
| ShellPipeline.Pipeline.Parse | waf-tools/shellcmd.py:121-201 | the token loop computes the six-state machine, raises exactly when it does, and leaves a well-formed pipeline |
| ShellPipeline.Pipeline.RunPipeline | waf-tools/shellcmd.py:214-346 | the popping loop yields the outcome and the processes of the flat reading in every world |
| ShellPipeline.ExecPipedCommands | waf-tools/shellcmd.py:203-212 | the exit code of the last process of the group |
| ShellPipeline.ParseAndRun | waf-tools/shellcmd.py:121-346 | a command line that parses and can run has the exit code and the processes of the right-nested reading, and under the condition of LineIsPosixIff those of the POSIX reading |
| ShellSemantics.GroupCodeIsLast | waf-tools/shellcmd.py:203-212 | a group returns its last code, whatever the others are |
| ShellSemantics.EvalFlatten | waf-tools/shellcmd.py:222-346 | the flat reading of a flattened and-or list is its right-nested meaning: same code, same processes in order, same input and directory for each |
| ShellSemantics.Structure | waf-tools/shellcmd.py:222-346 | every parsed pipeline with no bare or final `cd` is the flattening of a valid and-or list |
| ShellSemantics.RunIsRightNested | waf-tools/shellcmd.py:214-346 | run gives every such pipeline the right-nested meaning in every world |
| ShellSemantics.EvalParsed | waf-tools/shellcmd.py:225-233 | on parsed pipelines the node assertions hold, a value is returned, and only a final or a bare `cd` can raise |
| ShellProcesses.ProcessesOfLine | waf-tools/shellcmd.py:222-289 | in every world the n-th process is the n-th command of the line, with its words, environment and files; it reads the process before it behind a pipe, else its own file or the inherited input; it is where the line starts if no `cd` stands in front of it, else where those lead: an absolute directory replaces, any other is appended behind one slash |
| ShellProcesses.LastCode | waf-tools/shellcmd.py:203-212 | the code returned is that of the process started last |
| ShellProcesses.DirAndEnvExample | waf-tools/shellcmd.py:275-289 | a `cd x` followed by an assignment and a command: parsed, and its process has the assignment and the directory `./x` |
| ShellSemantics.RunsCleanIffRunnable | waf-tools/shellcmd.py:225-228 | no exception in any world if and only if there is no bare and no final `cd` |
| ShellPosixLine.LineIsPosixIff | waf-tools/shellcmd.py:121-346 | for token lists that POSIX divides in the same way: the run of the parsed line and the POSIX reading of the tokens agree in every world if and only if no `>` stands behind a `2>&1` of the same command and the parsed line meets the condition of RunIsPosixIff |
| ShellPosixLine.InOrderIff | waf-tools/shellcmd.py:156-193 | the parser forgets something that the POSIX reading keeps exactly when some `>` stands behind a `2>&1` of the same command; otherwise the two read the same nodes |
| ShellPosixLine.LineForgets | waf-tools/shellcmd.py:121-201 | the parser accepts every such line, and its nodes are those of the POSIX reading but for where stderr was pointed first |
| ShellPosixLine.OutOfOrderExample | waf-tools/shellcmd.py:159-187 | a line with `2>&1` in front of `>` parses to the same command as with it behind, where POSIX reads two different ones |
| ShellPosix.RunIsPosixIff | waf-tools/shellcmd.py:222-346 | on the commands as parsed, run and the POSIX reading have the same exit code and start the same processes in every world if and only if every pipe feeds a command without an input of its own, no operator behind a command is followed by one of the other kind, and no relative path is opened behind a `cd` |
| ShellPosix.ElementsOfLine | waf-tools/shellcmd.py:222-346 | the elements that the POSIX reading joins are the line itself: put together again they give its nodes |
| ShellPosix.LeftNestedIsFold | waf-tools/shellcmd.py:308-346 | nesting the list to the left is running it element by element, skipping those whose operator does not proceed |
| ShellPosix.MixedExample | waf-tools/shellcmd.py:312-323 | an or-connective followed by an and-connective, with all codes 0: run starts the first command only, POSIX also the third |
| ShellPosix.CdBehindOrExample | waf-tools/shellcmd.py:225-231 | the same when the command between them is a `cd` |
| ShellPosix.CdBehindPipeExample | waf-tools/shellcmd.py:225-231 | a pipe into `cd x` followed by an and-connective: the next command reads from the pipe in the new directory, in POSIX neither |
| ShellPosix.RedirectedBehindPipeExample | waf-tools/shellcmd.py:242-249 | a redirected input behind a pipe is ignored, where in POSIX it goes first |
| ShellPosix.RedirectedBehindCdExample | waf-tools/shellcmd.py:242-260 | a file behind a `cd` is opened where the script runs, in POSIX in the new directory |
| ShellPosix.CdInFrontExample | waf-tools/shellcmd.py:225-231 | a leading `cd` does not make a line mixed: its `&&` followed by an or-connective agrees with POSIX in every world |
| TypeGather.WalksExact | utils/print-introspected-doxygen.cc:1185-1269 | the depth-first enumeration has each simple walk that avoids the stack exactly once, and nothing else |
| TypeGather.StaticInformation.DoGather | utils/print-introspected-doxygen.cc:1185-1269 | terminates, restores both stacks, and appends one entry for each simple walk that avoids the stack |
| TypeGather.StaticInformation.Gather | utils/print-introspected-doxygen.cc:1176-1182 | from empty stacks, one entry for each simple walk from the type |
| TypeGather.StaticInformation.HasAlreadyBeenProcessed | utils/print-introspected-doxygen.cc:1113-1125 | whether the type is on the stack |
| TypeGather.StaticInformation.Get | utils/print-introspected-doxygen.cc:1128-1142 | the recorded paths of the type, in order |
| TypeGather.PathsOfConcat | utils/print-introspected-doxygen.cc:1132-1141 | Get keeps the order of the output: the paths of two parts are those of the first and then those of the second |
| TypePaths.LinksAreGiven | utils/print-introspected-doxygen.cc:1193-1269 | the links followed from a type are those that its attributes, the registered children and the aggregations give, one from each, in this order |
| TypePaths.LinkIff | utils/print-introspected-doxygen.cc:1193-1269 | there is a link to a type exactly for a pointer attribute, unless to a plain object, for a container attribute, with `/[i]`, for a registered child, or for an aggregation from either end, with `$` and the name |
| TypePaths.LinkCount | utils/print-introspected-doxygen.cc:1193-1269 | a link occurs as often as there are places in the tables that give it |
| TypePaths.PathsAreRoutes | utils/print-introspected-doxygen.cc:1128-1142 | after gathering, Get lists exactly the texts of the routes through the tables that come to no type twice and end in the type, each component with one slash in front |
| TypeGather.PathsOfGathered | utils/print-introspected-doxygen.cc:1128-1142 | Get lists exactly the paths of the simple walks that end in the type |
| TypeGather.PathsOfCount | utils/print-introspected-doxygen.cc:1128-1142 | Get lists each path as often as there are simple walks that end in the type and have that path, and as many paths as there are simple walks that end in the type |
| TypeGather.OneEntryPerWalk | utils/print-introspected-doxygen.cc:1193-1193 | as many entries as there are walks that visit no type twice |
| PatchFormat.ReadBack | utils/check-style.py:348-403 | parse_patchset undoes write if and only if no removed line starts with `-- ` and no added line with `++ ` |
| PatchFormat.FalseHeaderExample | utils/check-style.py:360-374 | a removed line `-- a` is read back as a file name |
| PatchFormat.ParseCount | utils/check-style.py:368-403 | parsing neither drops nor invents a chunk line |
| PatchFormat.ParseRaises | utils/check-style.py:366-402 | parsing raises exactly when there is a line of no kind, a second name or a chunk with no first name before it, or a chunk line with no chunk before it; the first such line decides the exception |
| PatchFormat.ChunkStartOf | utils/check-style.py:286-293 | a written chunk header is matched, with the source position and the number of source lines, the destination position and the number of destination lines, and nothing but a newline behind |
| PatchFormat.HeaderLengths | utils/check-style.py:254-285 | the two lengths are the numbers of lines on the source and on the destination side, for any lines |
| PatchSet.PatchChunkLine.Write | utils/check-style.py:204-217 | the sign and the text; raises exactly when no type was set |
| PatchFormat.AllTypedWritten | utils/check-style.py:286-295 | if every line has a type, what is written before an exception is everything |
| PatchSet.PatchChunk.Write | utils/check-style.py:286-295 | a header with the positions and the lengths of the two sides, and the lines up to the first that has no type, whatever the texts are; raises exactly when there is one |
| PatchSet.Patch.Write | utils/check-style.py:348-357 | the two names and the chunks up to the first line that has no type; raises exactly when there is one |
| PatchSet.ParsePatchset | utils/check-style.py:359-403 | new patches, chunks and lines, none of them shared, whose values are what the lines say, or the exception |
| PatchSet.NewLine | utils/check-style.py:384-401 | a line goes to the chunk begun last, whatever patch that is in, and changes no other |
| PatchSet.Reread | utils/check-style.py:348-403 | writing an object and parsing gives an object of the same value exactly when no line looks like a file name |
| Permuting.Permutations | bindings/python/rad_util.py:310-326 | the loops build the recursive list |
| Permuting.PermsExact | bindings/python/rad_util.py:310-326 | the results are exactly the rearrangements of the input, with or without repeated items |
| Permuting.PermsCount | bindings/python/rad_util.py:310-326 | n! results for any n items |
| Permuting.PermsInOrder | bindings/python/rad_util.py:317-322 | the order of the results: for each result for the rest, in order, the first item at every place in order |
| Permuting.PermsListed | bindings/python/rad_util.py:310-326 | each rearrangement is listed as often as the product of the factorials of the multiplicities says |
| Permuting.DifferentPerms | bindings/python/rad_util.py:310-326 | n! is the number of different results times that product |
| Permuting.PermutationsOfDistinct | bindings/python/rad_util.py:310-326 | for distinct items the n! results are pairwise different and exactly the rearrangements |
| Binary.Int2BinMeaning | bindings/python/rad_util.py:91-105 | for a width of at least 1: raises exactly when the number is 2^n or more, else n bits with that value |
| Binary.Int2BinOfBits | bindings/python/rad_util.py:91-130 | int2bin of bin2int of a string of bits, at its own length, is the string |
| Binary.Int2BinOdd | bindings/python/rad_util.py:96-105 | a negative number raises, and a width of 0 truncates nothing |
| Binary.Ripple | bindings/python/rad_util.py:649-659 | the inner loop adds one modulo 2^bits, with the carry in the last place of the toggle list |
| Binary.BinaryRange | bindings/python/rad_util.py:639-660 | 2^bits strings, the k-th being int2bin of k; none for a width of 0 |
| TcpWriter.Sender.constructor | examples/tcp/tcp-large-transfer.cc:82-86 | the buffer holds the alphabet over and over |
| TcpWriter.Sender.WriteUntilBufferFull | examples/tcp/tcp-large-transfer.cc:198-216 | across calls the accepted stream is the alphabet with no gap or repeat and never exceeds the total; what each call sends and whether it closes |
| TcpWriter.OfferLargest | examples/tcp/tcp-large-transfer.cc:203-206 | each turn offers the largest amount that stays inside the buffer, the transfer and the room |
| TcpWriter.FullTurns | examples/tcp/tcp-large-transfer.cc:200-213 | a socket with room that takes all it is offered gets 1040 bytes a turn, up to the total |
| TcpWriter.ClosesIff | examples/tcp/tcp-large-transfer.cc:200-215 | a call closes the socket exactly when all is sent or it comes to a turn without room before `Send` fails |
| TcpWriter.SliceLetters | examples/tcp/tcp-large-transfer.cc:50-52 | because 1040 is a multiple of 26, what the buffer holds from the offset of a stream position on are the letters from that position on |
| TcpWriter.Transfer | examples/tcp/tcp-large-transfer.cc:198-216 | after any number of upcalls, byte i of the stream is 97 + i mod 26 |
| TcpWriter.EverythingSent | examples/tcp/tcp-large-transfer.cc:200-215 | a socket that always has room and takes at least a byte gets the whole transfer, and is closed |

## Left out

- Simulation scripts, benchmarks, language bindings and build tools other than those named above: they wire up library classes that are not part of this model.
- `utils/grid.py`, `gcf`, `lcm`, `find_common_fixes` and the formatting helpers of `rad_util.py`: textbook or cosmetic.
- `test.py`: jobs and queues are values of one state, so the aliasing of `Job` objects is not modelled; a subprocess is any return code and is taken to return; printing, result files, timing and the choice of which jobs to dispatch are not part of it.
- `shlex`: a command line is the list of its tokens.
- LevelSort.TopsortLevelsCore: after a KeyError nothing is said about the tables, which the original leaves half changed.
- ShellPipeline.Pipeline.Parse: after an assertion has failed, nothing is said about the fields, which the original leaves half filled.
- The operating system under `run` of `shellcmd.py`: file descriptors, closing of files, a program, file or directory that cannot be opened (so a `cd` succeeds, and its operand is a path), the null device, and verbose output (which reads `retval` before it is set) are not modelled; the environment of a process is its assignments.
- ShellPosixLine.LineIsPosixIff: says nothing about token lists on which `PosixLine` is `None`: an operator or an end where POSIX wants a word, an operator in front of the command name, and words such as `A=` or `1A=x` that only one of the two takes for an assignment. The words are taken literally, and `cd` is the only built-in. Paths are compared as text, so `f` and `./f` count as different.
- ShellPosix.RunIsPosixIff: compares commands as parsed, without the order of their redirections; `LineIsPosixIff` adds it.
- `get_abbreviated_command` of `shellcmd.py`: its second test for `And` drops every `||`.
- Reflection and printing in `print-introspected-doxygen.cc`: the type registry is a value given from outside, in which every type that is mentioned is registered.
- `bin2int` on anything but bits: the blanks, signs and underscores that `int` also takes.
- `remove_trailing_whitespace_changes`, uncrustify, temporary files and `patch` in `check-style.py`; a file is the list of the lines written to it.
- The socket of `tcp-large-transfer.cc`: it is a list of answers. That it is closed only after everything was sent is not claimed, since the loop also ends when the buffer is full.
- The 32-bit counters of `tcp-large-transfer.cc` are unbounded here; the proved bound of 2000000 keeps them from wrapping.
