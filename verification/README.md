# Verified models of the repository's algorithms

This project models the self-contained algorithms of an ns-3/ndnSIM tree and proves what they are for. Every module
follows one source file or one part of it.

- **Dependency sorting and cycles** (`bindings/python/topsort.py`, with `is_rotated` from `rad_util.py`).
  `DependencyGraph.dfy` has paths, depths and cycles of a finite graph; `TopSort.dfy` the algorithm whose answer grows
  while it is walked along; `TopSortLevels.dfy` the level-by-level generator and the proof that the first refines the
  second; `FindCycles.dfy` the cycle enumeration with its pruned start nodes and its removal of rotations (`Rotation.dfy`);
  `CycleReport.dfy` what the sort's error and the enumeration say about each other. The order in which a dictionary lists
  its keys is arbitrary throughout.
- **The parallel test-job protocol** (`test.py`). `TestJobs.dfy` is a transition system of a main thread, any number of
  workers from one up, two first-in first-out queues and an interrupt flag that may be set at any moment. The exit code of
  each job's process is an arbitrary function of the job.
- **Shell pipelines** (`waf-tools/shellcmd.py`). `ShellParser.dfy` has the token parser and a canonical printer,
  `ShellChains.dfy` the meaning of a pipeline, `ShellLists.dfy` how it compares with section 2.9.3 of the POSIX Shell
  Command Language on the pipeline's nodes, `ShellRunner.dfy` the files opened and processes started along the way,
  `ShellTrace.dfy` what each process is started with and `ShellOrder.dfy` which are started and in what order, both told from
  the nodes, and `Shell.dfy` the `Pipeline` class whose methods are proved against them. Tokens are what a shell-like
  splitting has left; exit codes are an arbitrary function; opening files and starting processes succeed; settings are what
  is added to the environment; `verbose` is false.
- **Configuration paths** (`utils/print-introspected-doxygen.cc`). `ConfigPaths.dfy` has the `StaticInformation` class
  with its two stacks, over a registry of types given as a finite table.
- **Combinatorial routines** (`bindings/python/rad_util.py`): `Permutations.dfy`, `BinaryNumbers.dfy`, `GrayCode.dfy`.
- **Unified diffs** (`utils/check-style.py`). `PatchText.dfy` has parsing and printing of diffs as values, `PatchGrammar.dfy`
  a recognizer, told from the characters of each line, for the texts that survive being read and written; `PatchLines.dfy`
  what every line is read as and does, told from its characters; `PatchObjects.dfy` the mutable patch and chunk objects.
- **Timelines and scales** (`utils/grid.py`). `Timelines.dfy` has the binary searches and the windows taken with them,
  `ScaleTicks.dfy` the distance and the places of the ticks, in integers with Python 2 division.

Where the code and what is said about it differ, the model follows the code:

- The comment at `bindings/python/topsort.py:109` says that everything left over has a child. What holds is that
  everything left over has a *parent* that is left over, since what lies downstream of a cycle is left over too
  (`TopSort.NothingParentless`); with the pairs (2, 2) and (2, 3), 3 is left over and has no child
  (`TopSort.LeftoverWithoutChild`).
- `&&` and `||` associate to the right in `waf-tools/shellcmd.py`: a group that decides ends the whole line, where a shell
  goes on behind it. The two rules give the same status for all exit codes if and only if the line has no `||`, or each of
  its `&&` is that of a change of directory before the first `||` (`ShellLists.AgreesIffOneRule`). So `cd d && a || b`
  agrees (`ShellLists.ChdirThenOr`), and `a || cd d && b` does not: when `a` succeeds, the runner stops there and a shell
  goes on to `b` (`ShellLists.OrThenChdir`).
- Reading a written patch set, no payload of which has a line break, gives it back if and only if no removed payload starts
  with `-- ` and no added one with `++ ` (`PatchText.RoundTripIffSafe`, `PatchText.UnsafeLost`). Writing a parsed diff
  reproduces it if and only if every line ends in a line break and has no other, titles come in pairs, hunks follow a title,
  the numbers of a hunk's header have no leading zero and nothing stands behind them, and its body is as long as they say
  (`PatchGrammar.ReproducedIffWellFormed`).
- `TimelineDataRange.get_ranges_bounds` does not always give the ranges that meet the window. Sorting orders ranges by
  their starts only, so they may overlap and lie inside one another. The search looks at places that depend on the
  starts alone and finds a range if and only if one of those reaches the key (`Timelines.SearchProbes`); a key that a
  range holds can be missed when a later range, nested in that one, starts by the key and is over before it
  (`Timelines.NestedMissed`), and only then (`Timelines.SearchDecides`). An end of the window for which no range is
  found is taken to lie outside all ranges, and of two ranges that hold an end either may be found.
  `Timelines.ExactIffSettled` is the exact condition for all sorted ranges. Where the ends are in order as well,
  overlaps included, the bounds are right if and only if the window is reliable (`Timelines.Reliable`, which does not
  mention the search) and the search hits on the outer ones of the ranges that hold its ends (`Timelines.ExactIff`);
  where no two ranges hold one, if and only if it is reliable (`Timelines.SoleExact`). In a reliable window all ranges
  within the bounds then meet it, and a range left out holds an end of it (`Timelines.ReliableClose`).
  `Timelines.UnreliableWindow`, `Timelines.SharedEnd`, `Timelines.NestedMissed` and `Timelines.NestedTakenIn` show the
  four failures.
- `TimelineEvent.get_events_bounds` can lose events at the very ends of the window when several happen at the same time
  (`Timelines.TiedEvents`); it loses none if and only if the search hits on the outer ones of those, and never one strictly
  inside (`Timelines.EventBoundsIff`).
- A pipeline can raise after starting processes it never waits for, as `a | cd d` does (`Shell.PipeIntoChdir`). Every run of
  a pipeline waits for all it starts if and only if its first change of directory that cannot be performed, if there is one,
  does not come behind a pipe (`ShellRunner.AlwaysWaitsIff`).
- `ScaleRenderer.layout` divides by zero on a span of one, and only then.
- `binary_range(0)` is the empty list, not the list of the one empty string.
- `Uniquefy` in `utils/print-introspected-doxygen.cc:1172-1178` takes its argument by value, so nothing is said about
  repetitions being removed; `DoGather` records one path for each simple walk, and two walks may have the same path.

## Model

| member | source | states |
|---|---|---|
| TopSort.CountParents | bindings/python/topsort.py:77-90 | For every pair list, with repetitions and self-loops, every item becomes a key, its count is the number of pairs that give it a parent, and each successor list has one entry per pair in pair order. |
| TopSort.Parentless | bindings/python/topsort.py:92-93 | The list has exactly the keys with count zero, once each, in any order. |
| TopSort.KnockDown | bindings/python/topsort.py:100-103 | No child is missing from the dictionary; afterwards every count is that of the parents still to be dealt with, and exactly the items whose count has just become zero are listed, once each. |
| TopSort.SettleParent | bindings/python/topsort.py:98-106 | Deleting an item and knocking down its children keeps both dictionaries describing what is not yet dealt with, and keeps what is dealt with closed under parents. |
| TopSort.SortNext | bindings/python/topsort.py:97-106 | One turn of the growing-list loop: the rest of the answer lists exactly the items with count zero, depths along the answer never fall, and never run more than one level ahead. |
| TopSort.FreedDepth | bindings/python/topsort.py:101-103 | A child freed by the last of its parents lies exactly one edge deeper than that parent. |
| TopSort.LeftoversFedByCycle | bindings/python/topsort.py:108-111 | If all items left wait for a parent, each has a parent that is left, and a cycle upstream. |
| TopSort.NothingParentless | bindings/python/topsort.py:108-111 | When no count is zero, the keys left are exactly the items on or downstream of a cycle, and they are closed under having a leftover parent. |
| TopSort.ParentsFirst | bindings/python/topsort.py:61-64 | An order by depth puts each parent before each of its children. |
| TopSort.Conclude | bindings/python/topsort.py:108-112 | The error is raised if and only if the graph has a cycle, and then carries what hangs on cycles. |
| TopSort.TopSort | bindings/python/topsort.py:77-112 | The answer lists the items with no cycle upstream, each once, ordered by the length of their longest incoming path, parents before children; there is an error if and only if there is a cycle, so otherwise the answer is a permutation of all items. |
| TopSort.LeftoverWithoutChild | bindings/python/topsort.py:108-111 | With the pairs (2, 2) and (2, 3) the error holds 3, which has no child. |
| DependencyGraph.LongChainFedByCycle | bindings/python/topsort.py:108-111 | A path with more nodes than the graph has vertices runs through a cycle. |
| DependencyGraph.ClosedFedByCycle | bindings/python/topsort.py:108-111 | In a finite graph, everything in a set in which each member has a parent has a cycle upstream. |
| DependencyGraph.FedByCycleIffEveryChain | bindings/python/topsort.py:108-111 | An item has a cycle upstream if and only if paths of every length lead to it, so that exactly the other items have a depth. |
| TopSortLevels.NextLevel | bindings/python/topsort.py:204-205 | After n levels, the items without a count are exactly those whose longest incoming path has n edges. |
| TopSortLevels.LevelsEnd | bindings/python/topsort.py:207-208 | When a level would be empty, no item is left that has a depth, and nothing listed has a cycle upstream. |
| TopSortLevels.SettleLevel | bindings/python/topsort.py:217-224 | Dealing with a whole level has the effect of dealing with its items one after another. |
| TopSortLevels.YieldLevels | bindings/python/topsort.py:203-224 | The loop ends with no count zero, having listed at level k exactly the items of depth k. |
| TopSortLevels.TopSortLevelsCore | bindings/python/topsort.py:203-232 | Level k is exactly the set of items whose longest incoming path has k edges, each once; before an error, all items with no cycle upstream have been yielded; the error is raised if and only if there is a cycle. |
| TopSortLevels.TopSortLevels | bindings/python/topsort.py:157-172 | The same from a pair list. |
| TopSortLevels.BlockMatches | bindings/python/topsort.py:203-224 | In an order by depth, the items of depth k form a consecutive block that is a rearrangement of level k. |
| TopSortLevels.SortRefinesLevels | bindings/python/topsort.py:92-106 | Whatever the two algorithms return for a pair list, the first one's answer is cut into consecutive blocks of which the k-th is a permutation of the k-th level; also on cyclic input. |
| Rotation.RotationSymmetric | bindings/python/rad_util.py:735-741 | Being a rotation is symmetric. |
| Rotation.RotationTransitive | bindings/python/rad_util.py:735-741 | Being a rotation is transitive, so that removing rotations leaves classes with one member each. |
| Rotation.IsRotated | bindings/python/rad_util.py:761-775 | Looking only where the head of the second list occurs, the comparison says yes if and only if the second list is the first one read from another place. |
| FindCycles.FirstContact | bindings/python/topsort.py:346-349 | From whatever can reach a cycle, some path without repeated nodes meets the cycle only in its last node. |
| FindCycles.AroundCycle | bindings/python/topsort.py:367-369 | Such a path, led once around the cycle, is still without repeated nodes, and its end closes exactly that cycle. |
| FindCycles.SearchFindsCycle | bindings/python/topsort.py:351-383 | If all paths without repeated nodes from a start have been handled, every elementary cycle the start can reach has been found. |
| FindCycles.Yield | bindings/python/topsort.py:370-378 | No two yielded cycles are rotations of each other, and the given cycle is among them up to rotation. |
| FindCycles.ClosedTail | bindings/python/topsort.py:367-369 | The tail of the path from where the child occurs is an elementary cycle. |
| FindCycles.Expand | bindings/python/topsort.py:355-385 | Every path pushed is a path of graph edges without repeated nodes, every cycle closed by the popped path is found, and the number of paths still to be popped goes down. |
| FindCycles.PopComplete | bindings/python/topsort.py:352-385 | The stack keeps covering all paths from the start that have not been handled. |
| FindCycles.SearchFrom | bindings/python/topsort.py:351-385 | The search from a start terminates and has found every elementary cycle the start can reach; it marks as visited only what the start can reach. |
| FindCycles.ExploredFurther | bindings/python/topsort.py:346-349 | Skipping a start that has been visited loses nothing: all cycles it can reach have been found. |
| FindCycles.FindCycles | bindings/python/topsort.py:343-385 | For every finite graph, everything yielded is an elementary cycle, and of every elementary cycle exactly one rotation is yielded. |
| CycleReport.ClosedWalkHasCycle | bindings/python/topsort.py:108-111 | A closed walk contains an elementary cycle through its start. |
| CycleReport.SortFailsIffCycleYielded | bindings/python/topsort.py:108-112 | The sort fails if and only if the enumeration yields something. |
| CycleReport.ErrorShowsAllCycles | bindings/python/topsort.py:104-111 | The successor lists carried by the error have exactly the elementary cycles of the whole input. |
| TestJobs.InitInv | test.py:1339-1366 | Before any dispatch the invariant holds. |
| TestJobs.StepKeepsInv | test.py:929-997 | Every step of main, of a worker or of the interrupt keeps the invariant: every item taken from the input queue is in exactly one place, the input queue is in dispatch order, each result is the job's own, and the counters count what has been collected. |
| TestJobs.SentinelsComeLast | test.py:1626-1629 | While a worker has a sentinel or has left, no job waits in the input queue. |
| TestJobs.CollectingProgress | test.py:1648-1649 | While main waits for a result that is not there, some worker can move. |
| TestJobs.JoiningProgress | test.py:1786-1787 | While main waits for a worker to leave, that worker can move. |
| TestJobs.NoDeadlock | test.py:1648-1649 | In every reachable state some thread can move until main has finished; the interrupt is not needed for it. |
| TestJobs.StepDecreases | test.py:929-997 | Every step uses up some of a bounded amount of work, so that no schedule goes on for ever. |
| TestJobs.RunInv | test.py:929-997 | The invariant and the bound hold at every state of every run. |
| TestJobs.AllSentinelsTaken | test.py:1626-1629 | Workers that have left have taken one sentinel each, all different, and nothing is left in the input queue. |
| TestJobs.CollectedIds | test.py:1648-1649 | When main has collected as many results as jobs, each job is among them exactly once and the output queue is empty. |
| TestJobs.FinishedClean | test.py:1786-1787 | At the end all workers have left, both queues are empty, and every job has come back exactly once. |
| TestJobs.TallyFromJobs | test.py:1648-1677 | The counters are the numbers of jobs that came back run with exit code 0, 1, 2 and any other, and of those skipped; breaks are not counted. |
| TestJobs.CollectedIsExpected | test.py:943-957 | Without an interrupt, what is collected is what each job yields on its own, in some order. |
| TestJobs.SummaryIsDetermined | test.py:1648-1677 | Without an interrupt, all counters are the same for every schedule and sum to the number of tests. |
| TestJobs.ResultFromJobs | test.py:1865-1868 | The result is 0 if and only if every job came back, no break, and was skipped or returned 0, and otherwise 1; with an interrupt or without. |
| TestJobs.ResultFromCodes | test.py:1865-1868 | Without an interrupt the result is 0 if and only if every test of the suite is skipped or its process returns 0. |
| TestJobs.CountersFromCodes | test.py:1663-1677 | Without an interrupt the counters are the numbers of unskipped tests whose processes return 0, 1, 2 and anything else, and of skipped ones. |
| TestJobs.CollectedJob | test.py:943-972 | What comes back is the test as dispatched, with its process's exit code unless it is skipped, or else a break, and those only after an interrupt. |
| TestJobs.RanBeforeInterrupt | test.py:943-957 | In every run, no process is started and no test skipped once the interrupt has come: what comes back as no break had been started or skipped before. |
| TestJobs.EveryRun | test.py:1340-1868 | Every run is bounded in length, and a run that cannot go on has finished cleanly, with the result told from what came back and, without an interrupt, counters and result told from the suite and the exit codes. |
| ShellParser.EnvVarIff | waf-tools/shellcmd.py:24 | A token is a setting of a key to a value if and only if it is key, equals sign and value, the key of letters, digits and underscores, the value without space, with at most one line break behind. |
| ShellParser.FeedParsing | waf-tools/shellcmd.py:136-199 | Between tokens, what has been committed is a well-formed pipeline cut after an operator. |
| ShellParser.ParsedIsWellFormed | waf-tools/shellcmd.py:121-201 | What the parser produces is well formed: exactly the commands before a pipe write into it, a change of directory is followed by `&&` alone. |
| ShellParser.WellFormedAlternates | waf-tools/shellcmd.py:121-201 | In a well-formed pipeline operands and operators alternate, an operand first and last. |
| ShellParser.ParsePrint | waf-tools/shellcmd.py:121-201 | Parsing the canonical tokens of a well-formed pipeline gives the pipeline back. |
| ShellParser.WellFormedIffParsed | waf-tools/shellcmd.py:121-201 | The well-formed pipelines are exactly those that some token list parses to. |
| ShellParser.RedirectionFills | waf-tools/shellcmd.py:157-199 | A redirection fills its stream's place, and fails if that has been filled. |
| ShellParser.RedirectionAnywhere | waf-tools/shellcmd.py:155-199 | A redirection may stand before or behind any word of a command. |
| ShellParser.MergeAnywhere | waf-tools/shellcmd.py:161-163 | So may the joining of the errors to the output. |
| ShellParser.RedirectionsSwap | waf-tools/shellcmd.py:157-199 | Redirections of different streams may be swapped, also where one fails. |
| ShellParser.RedirectedTwice | waf-tools/shellcmd.py:161-199 | Redirecting a stream twice fails, and so does a pipe behind a redirected output. |
| ShellParser.SettingsAndChdirs | waf-tools/shellcmd.py:138-188 | A later setting of a key replaces an earlier one; a change of directory takes no setting and one directory. |
| ShellParser.Dangling | waf-tools/shellcmd.py:157-201 | A redirection without a file at the end of the line is forgotten. |
| Shell.Pipeline.ParseTokens | waf-tools/shellcmd.py:121-201 | The loop agrees with the parser function on every token list, failures included, and its pipeline is well formed. |
| Shell.Pipeline.ExecPipedCommands | waf-tools/shellcmd.py:203-212 | All commands are waited for in order, and the result is the last one's exit code, whichever fail. |
| Shell.Pipeline.StartCommand | waf-tools/shellcmd.py:242-291 | The files opened come first and the start last: with the command's arguments and settings, in the directory reached, each stream being a pipe, a file just opened by the name the command gives, a null device, or what the runner has. |
| Shell.Pipeline.FinishGroup | waf-tools/shellcmd.py:296-305 | A group is waited for before its files are closed. |
| Shell.Pipeline.EndGroup | waf-tools/shellcmd.py:312-346 | After an Or a status of zero stops the run with that status, after an And any other status does; else the rest of the line is what remains of the run. |
| Shell.Pipeline.Execute | waf-tools/shellcmd.py:222-346 | The loop's status and events are those of the recursive meaning of the pipeline. |
| Shell.Pipeline.Run | waf-tools/shellcmd.py:214-346 | The run equals the right-associative evaluation of the pipeline; its assertions never fail; it gets to the end unless a change of directory comes last or names nothing; then every process started has been waited for once and every file opened has been closed once; if it raises, exactly the processes started in the group it raises in are left behind; a process that reads a pipe has one that writes it. Which commands are started, with what and where, and in what order things happen, is told from the nodes and the exit codes. |
| Shell.PipeIntoChdir | waf-tools/shellcmd.py:225-228 | The parsable line `a` piped into `cd d` raises with `a` started and not waited for. |
| ShellChains.RunnableIntact | waf-tools/shellcmd.py:225-228 | A pipeline meets no change of directory it cannot perform if and only if each one names a directory and is not the last node. |
| ShellChains.IntactStatus | waf-tools/shellcmd.py:296-305 | Without such a change of directory every run returns a status. |
| ShellChains.ReadChainProper | waf-tools/shellcmd.py:222-243 | In the groups of a parsed pipeline every command but the last writes into a pipe and the last does not, so that a command in state PIPE has an upstream pipe. |
| ShellChains.StrandedIffPipedAway | waf-tools/shellcmd.py:222-243 | A chain breaks off with commands in its last group if and only if that is so of the nodes. |
| ShellLists.ChainStatus | waf-tools/shellcmd.py:222-346 | Read from the nodes, the runner's status is that of the last command of the first group that decides, with changes of directory passed over. |
| ShellLists.AgreeFrom | waf-tools/shellcmd.py:312-346 | From any place in a line with one rule that is reached, the runner's status is the shell's: operands joined left to right by the POSIX Shell Command Language, section 2.9.3, a change of directory counting as a success. |
| ShellLists.DifferFrom | waf-tools/shellcmd.py:320-323 | In any other line some exit codes make the two differ: one command that fails before a later or, or one that succeeds before a later and. |
| ShellLists.AgreesIffOneRule | waf-tools/shellcmd.py:312-346 | The runner gives the shell's status for all exit codes if and only if the pipeline has no or, or each of its ands is that of a change of directory before the first or. |
| ShellLists.OrThenChdir | waf-tools/shellcmd.py:320-323 | A line that can be parsed, with only a change of directory before its and, in which the runner returns 0 and a shell 1. |
| ShellLists.ChdirThenOr | waf-tools/shellcmd.py:225-231 | A line with both operators that always gets the shell's status. |
| ShellRunner.RunBalanced | waf-tools/shellcmd.py:296-346 | On every returning path, both short-circuits included, every process started has been waited for exactly once and every file opened has been closed exactly once. |
| ShellRunner.RunStartsOnce | waf-tools/shellcmd.py:289-291 | Processes are started in the order of the pipeline, none twice. |
| ShellRunner.RunConnected | waf-tools/shellcmd.py:242-243 | A process whose input is another process's output comes after that process, which was started with a pipe. |
| ShellRunner.RunLeaves | waf-tools/shellcmd.py:225-228 | Whatever the run's outcome, the processes started are those waited for and, after them, those of the group in which it raises, if it does. |
| ShellRunner.WaitedIffNoneAbandoned | waf-tools/shellcmd.py:225-228 | All processes have been waited for if and only if no group is left behind with a process started. |
| ShellRunner.AlwaysWaitsIff | waf-tools/shellcmd.py:225-228 | This is so for all exit codes if and only if, in the list of nodes, the first change of directory that cannot be performed does not come behind a pipe, other changes of directory between them aside. |
| ShellTrace.OneMoreDirectory | waf-tools/shellcmd.py:225-228 | The directory reached is the last absolute one passed, or else `.`, with the relative ones after it behind one slash each. |
| ShellTrace.StageStartedAs | waf-tools/shellcmd.py:233-291 | A process is started with the arguments and settings of its node, in the directory that the changes of directory before it lead to, reading from the command behind whose pipe it stands or the file it names, and writing where it says, null devices by either name being shared. |
| ShellTrace.WholeChainOf | waf-tools/shellcmd.py:222-243 | The stages of the groups are the commands of the pipeline, each behind the one whose pipe leads to it, and each in the directory reached. |
| ShellTrace.RunWritten | waf-tools/shellcmd.py:222-346 | So it is for every process of every run, and every file opened is for the process started next. |
| ShellOrder.StartsAre | waf-tools/shellcmd.py:222-346 | The commands started are those reached from the first node on: behind a pipe always, behind an and after 0, behind an or after anything else, up to a change of directory that cannot be performed. |
| ShellOrder.RunSequential | waf-tools/shellcmd.py:203-346 | No file is closed and no process that reads from no other is started before all processes started earlier have been waited for, and a process that reads from another one is started before that one is waited for. |
| ConfigPaths.StaticInformation.GetCurrentPath | utils/print-introspected-doxygen.cc:1104-1115 | The path is the stack's items in order, each behind a slash. |
| ConfigPaths.PathStringAt | utils/print-introspected-doxygen.cc:1104-1115 | The path is, at each item, the path of those before it, a slash, the item, and the path of those behind it. |
| ConfigPaths.StaticInformation.HasAlreadyBeenProcessed | utils/print-introspected-doxygen.cc:1126-1138 | Yes if and only if the type is on the stack. |
| ConfigPaths.StaticInformation.GatherAttribute | utils/print-introspected-doxygen.cc:1209-1245 | A pointer attribute is followed by its name unless it points to the most general type, a container by its name and `/[i]` to its item type, others not at all. |
| ConfigPaths.StaticInformation.GatherAttributes | utils/print-introspected-doxygen.cc:1207-1246 | All attribute edges have been followed in order, and both stacks are as before. |
| ConfigPaths.StaticInformation.GatherChildren | utils/print-introspected-doxygen.cc:1247-1259 | All registered types below the type have been followed, and both stacks are as before. |
| ConfigPaths.StaticInformation.GatherAggregates | utils/print-introspected-doxygen.cc:1260-1281 | All aggregation partners have been followed, and both stacks are as before. |
| ConfigPaths.StaticInformation.DoGather | utils/print-introspected-doxygen.cc:1198-1282 | The search terminates on every finite type graph, restores both stacks, and appends the records of the recursive specification. |
| ConfigPaths.EdgesAre | utils/print-introspected-doxygen.cc:1207-1281 | From each type the search follows exactly what the registry and the aggregations name, with these very labels: first attributes, then types below it, then partners, each in the order of their numbers. |
| ConfigPaths.RecordsTraced | utils/print-introspected-doxygen.cc:1198-1282 | The root is recorded with an empty path; with a record, whatever the registry or an aggregation names at its type and has not been passed on the way is recorded with its label behind a slash; and nothing else is recorded. |
| ConfigPaths.WalksInOrder | utils/print-introspected-doxygen.cc:1198-1282 | The walks are made depth first, and over the edges in their order. |
| ConfigPaths.StaticInformation.Gather | utils/print-introspected-doxygen.cc:1189-1195 | From empty stacks, what is appended is what the registry says should be, with exactly one record for each simple edge-labelled walk from the root, in the order of the walks. |
| ConfigPaths.WalksAre | utils/print-introspected-doxygen.cc:1198-1282 | The walks the search makes are exactly those that visit no type twice. |
| ConfigPaths.WalksDistinct | utils/print-introspected-doxygen.cc:1198-1282 | It makes none of them twice. |
| ConfigPaths.GatheredRecords | utils/print-introspected-doxygen.cc:1198-1282 | The records are those of the walks, one each, in order. |
| ConfigPaths.OneRecordPerSimpleWalk | utils/print-introspected-doxygen.cc:1198-1282 | From an empty stack there is exactly one record for each simple walk from the root. |
| ConfigPaths.ReachableIsRecorded | utils/print-introspected-doxygen.cc:1198-1282 | Every type that can be reached from the root gets a path. |
| Permutations.Permutations | bindings/python/rad_util.py:310-326 | The loops compute the lists of the recursive specification. |
| Permutations.PermsAre | bindings/python/rad_util.py:310-326 | The lists returned are exactly the rearrangements of the input. |
| Permutations.PermsCount | bindings/python/rad_util.py:310-326 | There are n! of them. |
| Permutations.PermsDistinct | bindings/python/rad_util.py:310-326 | If the items are distinct, no list occurs twice. |
| Permutations.PermsOrder | bindings/python/rad_util.py:310-326 | For each permutation of the rest in turn, the first item goes through every place, from the front to the back. |
| Permutations.NotAlphabetical | bindings/python/rad_util.py:298-326 | The second permutation of `abc` is `bac`, which is why the example has to sort them. |
| BinaryNumbers.HexToBinValue | bindings/python/rad_util.py:91-97 | The hexadecimal digits, each mapped to four binary ones, write the same number. |
| BinaryNumbers.Int2BinMeans | bindings/python/rad_util.py:91-105 | `int2bin(i, n)` fails if and only if i is at least 2^n; otherwise it has n binary digits that `bin2int` reads as i. |
| BinaryNumbers.Int2BinUnique | bindings/python/rad_util.py:91-105 | It undoes `bin2int` on every string of n binary digits. |
| BinaryNumbers.ReversedValue | bindings/python/rad_util.py:645-647 | Reversing the list gives the number's usual notation. |
| BinaryNumbers.Increment | bindings/python/rad_util.py:649-659 | The toggle loop adds one, modulo 2^bits; the last toggle is the carry out. |
| BinaryNumbers.BinaryRange | bindings/python/rad_util.py:632-660 | For at least one bit the loop ends with 2^bits strings, of which the k-th is `int2bin(k, bits)` and is read back as k; for none it returns nothing. |
| GrayCode.NeighboursDifferInOneBit | bindings/python/rad_util.py:612-615 | The codes of i and i + 1 differ in exactly one bit. |
| GrayCode.GrayInjective | bindings/python/rad_util.py:612-615 | No two numbers have the same code. |
| GrayCode.GrayRange | bindings/python/rad_util.py:612-615 | A code is below 2^n if and only if its number is. |
| GrayCode.GrayOnto | bindings/python/rad_util.py:612-615 | Every number below 2^n is the code of one below 2^n, so the encoding permutes them. |
| GrayCode.LsbIsRemainder | bindings/python/rad_util.py:602-609 | The n low bits are the remainder modulo 2^n. |
| GrayCode.LsbLosesNothing | bindings/python/rad_util.py:602-615 | Keeping n low bits changes no code of a number below 2^n. |
| PatchText.StepBody | utils/check-style.py:382-399 | A printed body line with a safe payload is read as what it is. |
| PatchText.MatchHeader | utils/check-style.py:362 | A printed chunk header is read with its own positions. |
| PatchText.ParsedIsProper | utils/check-style.py:368-403 | Whatever the text, no payload of what is parsed has a line break or looks like a file header. |
| PatchText.ParsePrint | utils/check-style.py:359-403 | Parsing the text of a patch set gives the patch set back if no payload looks like a file header. |
| PatchText.RoundTripIffSafe | utils/check-style.py:359-403 | For payloads without line breaks it does so if and only if no removed payload starts with `-- ` and no added one with `++ `. |
| PatchText.UnsafeLost | utils/check-style.py:368-370 | A patch set with the removed payload `-- x` is not given back. |
| PatchText.ReproducedIffCanonical | utils/check-style.py:348-403 | Writing what was parsed gives the text back if and only if the text is one that writing can produce from a safe patch set. |
| PatchGrammar.CanonicalIsWellFormed | utils/check-style.py:286-295 | Such texts are accepted by the line-by-line recognizer. |
| PatchGrammar.WellFormedIsCanonical | utils/check-style.py:348-357 | The recognizer accepts only such texts. |
| PatchGrammar.PlainIffReprinted | utils/check-style.py:293 | Digits are what printing makes of the number they write if and only if there is one and the first is no zero, unless it is the only one. |
| PatchGrammar.PlainIsPrinted | utils/check-style.py:286-295 | A header whose four numbers are such digits, with nothing behind it, is what printing makes of those numbers. |
| PatchGrammar.ReproducedIffWellFormed | utils/check-style.py:348-403 | Writing a parsed diff reproduces it if and only if every line ends in its only line break, every title is a pair of lines, hunks follow a title, the numbers of a header have no leading zero and nothing stands behind them, and each hunk's counts match its body. |
| PatchLines.HunkRead | utils/check-style.py:362 | Any four non-empty runs of digits between the signs of a header, whatever stands behind it, are read as a hunk whose positions are the first and third number. |
| PatchLines.HunkIs | utils/check-style.py:362 | No other line is read as a hunk. |
| PatchLines.MatchLineIff | utils/check-style.py:360-365 | A title or body line is read as the text behind its mark, with a line break at the end or without, if there is no other line break in it. |
| PatchLines.EveryLineReads | utils/check-style.py:368-402 | Each line reads as exactly one thing: a title, its target, a hunk's header, a body line that looks like neither of the first two, or nothing. |
| PatchLines.StepMeans | utils/check-style.py:368-402 | A title opens a patch, a target names the last one, a header adds a chunk to it, a body line goes to the end of the chunk opened last; without a patch or a chunk to go to, and on a line that reads as nothing, the parser raises. |
| PatchLines.ParseIff | utils/check-style.py:366-403 | A text is parsed if and only if each line can be read after those before it, and then gives what they have put together. |
| PatchText.LinesButIsSide | utils/check-style.py:254-273 | The sides of a chunk are its lines of one kind and those of both, all of them, in order. |
| PatchObjects.PatchChunk.Src | utils/check-style.py:254-263 | The lines that are source lines or both, in order, all of them and no others. |
| PatchObjects.PatchChunk.Dst | utils/check-style.py:264-273 | The lines that are destination lines or both, in order, all of them and no others. |
| PatchObjects.PatchChunk.Write | utils/check-style.py:286-295 | The chunk's text, its counts being those of its two sides. |
| PatchObjects.Patch.Write | utils/check-style.py:348-357 | The patch's text. |
| PatchObjects.ReadLine | utils/check-style.py:368-402 | One line changes the objects as it changes the parser's value, which is as what it looks like says, and fails exactly where that fails; no object is shared. |
| PatchObjects.ParsePatchset | utils/check-style.py:359-403 | It succeeds if and only if each line can be read after those before it, and the objects built show what they have put together, each patch and chunk being an object of its own. |
| PatchObjects.Rewrite | utils/check-style.py:348-403 | Parsing into objects and writing them reproduces the text if and only if it is a well-formed diff. |
| Timelines.TimelineEvent.Search | utils/grid.py:201-219 | On ordered times, ties included, the place of an event at the key, or where one would be. |
| Timelines.EventBoundsIff | utils/grid.py:236-245 | On ordered times and a window that is not reversed, all events strictly inside are within the bounds and all within them but the last are in the window; the bounds hold all events from start to end and at most the first one after them if and only if no event at the start stands before them and none at the end behind them. |
| Timelines.TakenEvents | utils/grid.py:226-235 | An event strictly inside the window is taken, and so is one at its ends if no two events happen at the same time. |
| Timelines.TiedEvents | utils/grid.py:201-219 | Of three events at the only time of the window one is taken. |
| Timelines.MiddleEvent | utils/grid.py:207-213 | The event in the middle is looked at first. |
| Timelines.TimelineEvent.GetEventsBounds | utils/grid.py:236-245 | For all ordered times, the loops return bounds of which this exact condition holds; it is met whenever times strictly increase. |
| Timelines.TimelineEvent.GetEvents | utils/grid.py:226-235 | The events taken are those within these bounds: they stand together in the list, and from a window that is not reversed all but the last lie in it and the last is not before it. |
| Timelines.SearchProbes | utils/grid.py:105-123 | For all ranges in any order, the search finds one if and only if one of the ranges at which a bisection by the starts alone turns right reaches the key. |
| Timelines.LastFound | utils/grid.py:105-123 | On sorted ranges, if the last range that starts by the key holds it, a range is found. |
| Timelines.SearchDecides | utils/grid.py:105-123 | On sorted ranges, nested ones included, if no range that starts by the key is over before it behind one that holds it, the search finds a range if and only if one holds the key. |
| Timelines.FoundBefore | utils/grid.py:105-123 | If the range found for the end of the window starts by its start, a range is found for the start as well. |
| Timelines.SearchFromFirst | utils/grid.py:105-123 | Of the ranges probed, the search returns the first that reaches the key. |
| Timelines.MiddleRange | utils/grid.py:112-116 | The range in the middle is looked at first. |
| Timelines.TimelineDataRange.Search | utils/grid.py:105-123 | For all ranges the loop returns one that holds the key or -1, the latter if and only if none of the ranges probed reaches it; on sorted ranges without one nested in a range that holds the key, if and only if none holds it. |
| Timelines.ReliableClose | utils/grid.py:153-169 | On ranges with starts and ends in order, overlapping or not, every range within the bounds of a reliable window meets it, and a range that meets it and is left out holds an end of it that a range within the bounds holds too. |
| Timelines.ExactIffSettled | utils/grid.py:153-169 | On all sorted ranges, nested and reversed ones included, and a window that is not reversed, the bounds are exactly those of the ranges that meet it if and only if an end for which nothing is found lies outside (if nothing is found for either, no range meets the window), the search hits on the outer ones of the ranges that hold an end, and no range is over too early: before the window but within the bounds, or inside it but behind them. |
| Timelines.StartsBefore | utils/grid.py:164-165 | With nothing found for the start and right bounds, the window starts before all ranges. |
| Timelines.ExactIff | utils/grid.py:153-169 | With starts and ends in order, overlaps included, they are so if and only if the window is reliable (each end is in a range, or lies beyond all ranges on its side, or nothing lies between) and the search hits on the outer ones of the ranges that hold its ends. |
| Timelines.SoleExact | utils/grid.py:153-169 | If besides no two ranges hold an end of the window, they are so if and only if the window is reliable. |
| Timelines.UnreliableWindow | utils/grid.py:164-165 | A window that starts in a gap takes in a range that ends before it. |
| Timelines.SharedEnd | utils/grid.py:105-123 | A reliable window that starts where two ranges meet loses the first of them. |
| Timelines.NestedMissed | utils/grid.py:105-123 | On [0, 100], [10, 20], [30, 40] the search misses 50, which the first range holds, and the window 50 to 60 gets no range. |
| Timelines.NestedTakenIn | utils/grid.py:168-169 | On [0, 1], [2, 100], [3, 4], [80, 110] the window 50 to 105, both ends of which are found, takes in [3, 4]. |
| Timelines.TimelineDataRange.GetRangesBounds | utils/grid.py:153-169 | For ranges in any order: where a probed range reaches an end of the window, the bound is at the first that does, and it holds the end; where none does, the bounds go as far as there are ranges; where none reaches either, they are zero. They are not reversed for a window that is not. For all sorted ranges the exact condition holds of them, and where the ends are in order too, so do those that speak of reliable windows. |
| ScaleTicks.SuitableUnique | utils/grid.py:908-916 | Only one power of ten puts the span between two and twenty times it, so the choice is determined. |
| ScaleTicks.TickDistance | utils/grid.py:908-916 | The distance is that power of ten for spans from two up, and zero for a span of one. |
| ScaleTicks.ScaleRenderer.Layout | utils/grid.py:908-920 | It fails, by a division by zero, if and only if the span is one, and otherwise sets that distance. |
| ScaleTicks.TicksAre | utils/grid.py:943-955 | The multiples of the distance above the lower bound, by number, are exactly the ticks. |
| ScaleTicks.TickCountBounds | utils/grid.py:908-920 | There are between 2 and 20 ticks, whatever the span from two up. |
| ScaleTicks.ScaleRenderer.Draw | utils/grid.py:943-978 | The ticks drawn are exactly the multiples of the distance in (lo, hi], in order, and the subticks those of a tenth of it. |
| ScaleTicks.ScaleRenderer.Render | utils/grid.py:908-955 | Set up, laid out and drawn, a scale has between 2 and 20 ticks, each a multiple of the distance in (lo, hi]. |

## Left out

- TopSort.TopSort: dictionaries are values handed on, so that a caller's own dictionaries being emptied by `topsort_levels_core` is not captured; nor is a consumer that changes a yielded list.
- FindCycles.FindCycles: the generator's yields are collected in a list; stopping it half-way is not modelled.
- Rotation.IsRotated: two empty lists are excluded, since the source indexes into them; cycles are never empty.
- The lists of test names in the summary of `test.py`, its XML and HTML output, option parsing, and what makes a test skipped: only the counters and the result are modelled.
- Worker processes: a job's exit code is a given function of the job.
- A second change of the interrupt flag: it is only ever set.
- Shell.Pipeline.Run: a pipeline left behind by a failed parse is not run; opening a file or starting a process does not fail; with `verbose` the source reads a variable that may not be set (`waf-tools/shellcmd.py:321-325` and `337-343`).
- ShellLists.AgreesIffOneRule: a change of directory succeeds, in the shell as in the runner, which joins names without looking.
- Splitting a command line into tokens, the abbreviated command (which never shows `||`), and the command-line entry point of `shellcmd.py`.
- ConfigPaths.StaticInformation.Gather: the call of `Uniquefy`, which changes nothing; the list of types without an identifier; printing.
- The registry of types: which type is below which is a given relation, attributes are pointers, containers or neither.
- BinaryNumbers.Int2BinMeans: numbers are not negative, and there is at least one digit.
- GrayCode.NeighboursDifferInOneBit: numbers are not negative.
- The remaining helpers of `rad_util.py`: floating point, formatting, argument parsing and textbook arithmetic.
- PatchObjects.PatchChunk.Write: a line of a patch is a value, as each line object is set once, right after it is made, and never shared.
- PatchText.ParsePrint: the final newline that the patterns ignore is modelled; file input and output are lists of lines.
- `remove_trailing_whitespace_changes` and everything that calls external programs in `check-style.py`.
- Timelines.TimelineEvent.GetEventsBounds: times in order are a precondition, as sorting gives them; the sort methods are the language's own, and give ranges the order of their starts only.
- ScaleTicks.ScaleRenderer.Draw: bounds are integers; drawing, text extents and pixel positions are left out.
- Everything else in the tree: simulation set-up over classes that are not shown, the learning scripts, log post-processing, and build glue.
