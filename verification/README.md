# Verified models of the ns-3 data-centre scripts

A Dafny project that models the self-contained algorithms of this repository and proves what they
promise. `dafny verify dfyconfig.toml` checks all of it. One file holds one module:

- `Graphs`, `Topsort`, `TopsortLevels`, `FindCycles`: dependency sorting, level by level and in one
  list, and the listing of all elementary cycles (`bindings/python/topsort.py`). Which elements are
  left over, whether `CycleError` is raised and which level an element gets are decided by the
  relation alone; the cycle listing is sound, complete, free of rotations of one cycle, and ends.
- `WorkerPool`, `WorkerSafety`, `WorkerRuns`: the thread pool of `test.py` as a transition system over every
  interleaving of the main thread, the workers and SIGINT. Conservation of jobs, safe shutdown,
  freedom from deadlock, termination and the meaning of the exit status.
- `ShellParse`, `ShellPrint`, `ShellGrammar`, `ShellRun`, `ShellLaunch`: the token machine and the
  evaluator of `waf-tools/shellcmd.py`. What is accepted and what it is read as, for items in any order;
  printing and parsing are inverse; what a run starts and with what; its value, compared with the
  shell's.
- `Gather`: the path search of `utils/print-introspected-doxygen.cc`, equal to the simple paths of
  the type graph.
- `BCube`, `FatTree`, `Racks`: the topology builders. Closed forms of the patched counters, degrees,
  shortest paths, path counts, placement and addresses.
- `RadUtil`, `BinaryRange`, `Permutations`: bit strings, the ripple counter and permutations of
  `bindings/python/rad_util.py`.
- `Timeline`: the binary searches of `utils/grid.py`.
- `Patches`, `PatchLines`: reading and writing unified diffs in `utils/check-style.py`.
- `Common`: optional values, lists without repetitions, addresses, sorting and quotients, used by the others.

Dictionaries are maps whose key order is arbitrary, generators are modelled fully consumed,
exceptions and failed assertions are outcomes, and the code that updates variables step by step is a
method proved against a function or a predicate whose properties are then proved as lemmas.

## What the code does not do

Some expectations fail, and the exact condition is proved instead.

- The comment in `topsort` says every left-over element has a child. It has a parent that is left
  over (`Topsort.Exhausted`); all of them have a child if and only if no element without children lies
  below a cycle (`Topsort.LeftoverChildren`), which fails for the pairs (1, 1) and (1, 2).
- `shellcmd` evaluates `a && b || c` as `a && (b || c)`, and a `cd` together with what follows it. It
  agrees with the AND-OR lists of section 2.9.3 of POSIX.1-2017 XCU, for all exit statuses, if and only
  if the operators from the first `&&` or `||` that follows a command on, `&&`s after later `cd`s
  included, are of one kind (`ShellRun.AgreesWithShell`). `a && b || c` and `a || cd x && b` are worked
  out in `ShellRun.MixedExample` and `ShellRun.MixedCdExample`; `cd x && a || b` always agrees.
- A parsed pipeline always runs to an exit status if and only if no `cd` is last and every `cd` names
  a directory (`ShellRun.ParsedRuns`). With `verbose`, a run fails on a variable that was never set if
  and only if a command directly followed by `&&` or `||` comes before any `cd` that is last or names no
  directory (`ShellRun.VerboseBreaks`). A `cd` inside a pipe does not break the pipe.
- `int2bin` follows its documentation if and only if the width is positive (`RadUtil.Int2BinLaw`);
  `binary_range(0)` is empty although there is one string of width 0 (`BinaryRange.Run`).
- `get_ranges` returns exactly the overlapping ranges only if the query fits the ranges: an uncovered
  start lies before all of them, an uncovered end after all of them, and no range lies between two
  uncovered ends. All queries that fit are answered exactly if and only if no two ranges touch
  (`Timeline.FittingQueriesExact`); a query for a point returns one range even if two touch there
  (`Timeline.PointQuery`). What a single query gets is `Timeline.RangesExact`.
- `get_events` returns the events in the window and the first one after it if there is none at its end
  or between its end and a later start. This holds for all queries if and only if no events are
  simultaneous (`Timeline.AllQueriesExact`); a query for a moment returns one event even if several are
  simultaneous (`Timeline.MomentQuery`). What a single query gets is `Timeline.EventsExact`.
- A patch set survives writing and reading if and only if no source-only line starts with `-- `, no
  destination-only line with `++ `, and no name or line contains a newline (`Patches.RoundTrip`).
- Without workers, and with something to run, the main thread waits for ever
  (`WorkerSafety.StuckWithoutWorkers`).
- Rack addresses are pairwise different if and only if, for every rack from the 32769th on whose number
  has bit 15 set, three blocks of last octets stay apart: those of its host links, of its switch links
  and of the switch links of the rack 32768 before it (`Racks.NoCollisionExactly`). A file of three
  lines breaks this (`Racks.CollidingFile`).
- Fat-tree addresses are proper exactly up to 126 ports, BCube addresses exactly up to 16.

## Model

| member | source | states |
|---|---|---|
| Graphs.SelfSupportedBelowCycle | bindings/python/topsort.py:108-111 | if every left-over element has a left-over parent, each of them lies below an elementary cycle |
| Graphs.PlacedNotBelowCycle | bindings/python/topsort.py:61-65 | an element that comes after all its parents in a list without repetitions is not below any cycle |
| Graphs.LeftoverIsBelowCycle | bindings/python/topsort.py:97-112 | an ordered answer with a self-supporting rest leaves over exactly the elements below a cycle |
| Topsort.CountParents | bindings/python/topsort.py:77-90 | the two tables hold, for every mentioned element, its number of parents with repetitions and its children in order |
| Topsort.KnockDown | bindings/python/topsort.py:100-101 | taking a parent out lowers the count of an element by its number of occurrences among the parent's children |
| Topsort.KnockedStep | bindings/python/topsort.py:100-103 | the count decremented is positive, and when it reaches 0 all parents of the child are placed |
| Topsort.Process | bindings/python/topsort.py:97-106 | a round keeps the tables exact, the answer ordered and duplicate-free, and the zero counts equal to the placed elements |
| Topsort.Sort | bindings/python/topsort.py:61-112 | the answer lists exactly the elements not below a cycle, once, parents first; CycleError is raised exactly when the relation has a cycle, with tables that describe the rest |
| Topsort.Exhausted | bindings/python/topsort.py:108-112 | when the answer is used up, every left-over element has a left-over parent |
| Topsort.LeftoverChildren | bindings/python/topsort.py:108-111 | every element left in the table of the exception has a child if and only if no element without children lies below a cycle |
| Topsort.LeftoverWithoutChild | bindings/python/topsort.py:109-110 | for the pairs (1, 1) and (1, 2) the exception leaves 2 in the table without a child |
| TopsortLevels.RemoveLevel | bindings/python/topsort.py:217-224 | a whole level leaves both tables and the counts stay exact |
| TopsortLevels.SortLevelsCore | bindings/python/topsort.py:174-232 | from any consistent tables: levels by longest chain, everything not below a cycle, CycleError exactly for cyclic relations |
| TopsortLevels.SortLevels | bindings/python/topsort.py:114-172 | the same from a list of pairs, with tables that describe the rest |
| TopsortLevels.DepthOfNext | bindings/python/topsort.py:204-205 | the parentless elements of a round are those whose longest predecessor chain has as many steps as there were rounds |
| TopsortLevels.LevelIsDepth | bindings/python/topsort.py:203-224 | an element is in level d if and only if its longest predecessor chain has d steps |
| TopsortLevels.LevelsRemoveTheSame | bindings/python/topsort.py:114-232 | the flattened levels are an answer topsort may give and hold the same elements once each |
| FindCycles.IsRotated | bindings/python/rad_util.py:761-775 | true exactly for rotations; two empty sequences raise IndexError |
| FindCycles.RunIntoCycle | bindings/python/topsort.py:353-370 | from any node that leads to a cycle some simple path runs into it and round it |
| FindCycles.AddCycle | bindings/python/topsort.py:369-378 | the cycle is represented afterwards and no two listed cycles are rotations of each other |
| FindCycles.ExpandPath | bindings/python/topsort.py:353-385 | every child extends the path on the stack or closes a listed cycle, visited nodes are reachable from a root, and the pending work is bounded |
| FindCycles.ExploredCovers | bindings/python/topsort.py:352-385 | an emptied stack means that no cycle the root leads to was missed |
| FindCycles.ExploreRoot | bindings/python/topsort.py:351-385 | exploring a root ends and lists every cycle it leads to |
| FindCycles.CoveredByVisit | bindings/python/topsort.py:347-349 | what a visited node leads to is already listed, so skipping it misses nothing |
| FindCycles.Run | bindings/python/topsort.py:343-385 | for every key order: only elementary cycles, all of them up to rotation, each once |
| WorkerPool.MainKeepsInv | test.py:1191-1471 | every step of the main thread keeps the invariant |
| WorkerPool.WorkerKeepsInv | test.py:849-917 | every step of a worker keeps the invariant |
| WorkerSafety.ExactlyOnePlace | test.py:849-917 | in every reachable state each queued job and token is in exactly one of the two queues, a worker and the collected jobs |
| WorkerSafety.ShutdownSafe | test.py:856-866 | an exited worker took a real token, and no test is left in the input queue |
| WorkerSafety.OnlyInterruptsMark | test.py:863-866 | collected jobs are tests, and one is marked only if the interrupt came |
| WorkerSafety.TallyAddsUp | test.py:1442-1471 | the five counters and the interrupted jobs add up, and passed plus skipped is everything exactly when every job succeeded |
| WorkerSafety.Verdict | test.py:1585-1641 | on return all workers have exited, every test was collected once, the counters account for all of them and 0 means that every test succeeded |
| WorkerSafety.NeverStuck | test.py:1442-1447 | with a worker or nothing to do, some thread can move until run_tests returns |
| WorkerSafety.StuckWithoutWorkers | test.py:1165-1183 | with no worker and something to do, a reachable state has nobody who can move |
| WorkerSafety.EveryRunEnds | test.py:1585-1586 | in every schedule the threads make at most 6 (tests + workers) + 4 steps, whatever the signal does |
| WorkerRuns.RunOnce | test.py:881-907 | no test is run twice |
| WorkerRuns.AlwaysTold | test.py:863-917 | interrupted and skipped tests are not run, and every other job carries the code its run returned |
| WorkerRuns.FlagSet | test.py:863-866 | thread_exit is set exactly when the signal has come |
| WorkerRuns.InterruptStops | test.py:863-866 | after the signal only tests that were being run finish a run, and every test not past the check comes back marked |
| WorkerRuns.InterruptFails | test.py:1638-1641 | 1 is returned if some test, skipped or not, was not past the check when the signal had come |
| WorkerRuns.VerdictOfRuns | test.py:1638-1641 | 0 is returned exactly when no test was interrupted and every test not skipped was run and returned 0 |
| WorkerRuns.CountersMean | test.py:1448-1471 | each counter is the number of collected jobs of its kind |
| ShellParse.Pipeline.CommitCommand | waf-tools/shellcmd.py:100-103 | moves the current command to the pipeline or fails |
| ShellParse.Pipeline.CommandToken | waf-tools/shellcmd.py:153-198 | one token while a command is being read |
| ShellParse.Pipeline.ParseTokens | waf-tools/shellcmd.py:120-200 | the loop computes Parse and fails exactly when Parse does |
| ShellPrint.ParseWellFormed | waf-tools/shellcmd.py:120-200 | only well-formed pipelines come out of parse |
| ShellPrint.RoundTrip | waf-tools/shellcmd.py:120-200 | the canonical tokens of a well-formed pipeline parse to that pipeline, for every order of the environment variables |
| ShellPrint.Image | waf-tools/shellcmd.py:120-200 | a pipeline can be produced by parse if and only if it is well-formed |
| ShellPrint.EnvTokenMatches | waf-tools/shellcmd.py:23 | NAME=value with word characters and no spaces is recognised as that assignment |
| ShellGrammar.EnvMatchExactly | waf-tools/shellcmd.py:23 | exactly which tokens are assignments, and which name and value they give |
| ShellGrammar.ListParses | waf-tools/shellcmd.py:120-200 | commands with arguments and redirections in any order, and cds, parse exactly when no stream is named twice, no output goes to a file and a pipe, no variable precedes a cd and no cd has two directories; every node then says what its part says, the last assignment of a variable winning |
| ShellGrammar.DanglingIgnored | waf-tools/shellcmd.py:153-162 | a redirection sign at the very end changes nothing |
| ShellRun.ExecPipedCommands | waf-tools/shellcmd.py:202-211 | the value of a segment is the status of its last process |
| ShellRun.Run | waf-tools/shellcmd.py:213-345 | for any list of nodes, the result (failed assertions included) and the processes started, with their directory and input, are those of the right-nested chain of segments |
| ShellLaunch.ParseAndRun | waf-tools/shellcmd.py:213-345 | the processes are the commands in order, each with its own arguments, streams, variables, input and directory, up to the last command, a settled operator, a failing report or an unusable cd |
| ShellLaunch.ParsedRun | waf-tools/shellcmd.py:224-345 | the same about the specified outcome |
| ShellLaunch.CommandsInOrder | waf-tools/shellcmd.py:222-232 | the positions listed are those of all the commands, in order |
| ShellLaunch.JoinIs | waf-tools/shellcmd.py:227 | how a directory follows the one before it |
| ShellRun.ParsedRuns | waf-tools/shellcmd.py:224-232 | a parsed pipeline never fails an assertion and never falls through, and gives an exit status for all process statuses exactly when every cd is usable |
| ShellRun.VerboseBreaks | waf-tools/shellcmd.py:319-341 | with verbose, a parsed pipeline fails on the unset variable exactly when a command directly followed by an and- or or-operator comes before any unusable cd; otherwise verbose changes nothing |
| ShellRun.ParsedIsRightNested | waf-tools/shellcmd.py:307-345 | the result of a parsed pipeline is the right-nested value of its segment statuses under its and- and or-operators |
| ShellRun.AgreesWithShell | waf-tools/shellcmd.py:311-345 | a run of a parsed pipeline has the value the left-associative shell gives it, for all process statuses, exactly when the operators from the first and- or or-operator after a command on are of one kind |
| ShellRun.MixedExample | waf-tools/shellcmd.py:328-341 | for a, and b, or c with a failing a, the run stops with the status of a, the shell goes on to c, and a verbose run fails |
| ShellRun.MixedCdExample | waf-tools/shellcmd.py:224-232 | for a, or cd x, and b with a successful a, the run stops with status 0 and the shell goes on to b |
| Gather.StaticInformation.HasAlreadyBeenProcessed | utils/print-introspected-doxygen.cc:157-168 | membership in the stack of types |
| Gather.StaticInformation.GetCurrentPath | utils/print-introspected-doxygen.cc:138-148 | the loop computes PathString of the stack |
| Gather.PathStringIs | utils/print-introspected-doxygen.cc:138-148 | every label with a slash before it, one after the other |
| Gather.EdgesAre | utils/print-introspected-doxygen.cc:203-281 | a type leads, under these labels, to what its pointer and container attributes refer to, to registered types derived from it and to the other side of its aggregations, and to nothing else |
| Gather.StaticInformation.DoGather | utils/print-introspected-doxygen.cc:194-282 | appends the records of the search and leaves both stacks as they were |
| Gather.VisitSound | utils/print-introspected-doxygen.cc:194-282 | every record comes from a simple path avoiding the stacked types |
| Gather.VisitComplete | utils/print-introspected-doxygen.cc:194-282 | every simple path avoiding the stacked types is recorded |
| Gather.VisitIsSimplePaths | utils/print-introspected-doxygen.cc:185-282 | from rest, exactly the simple paths from the root are recorded |
| Gather.SortedAndUnique | utils/print-introspected-doxygen.cc:190-191 | sorting and dropping adjacent duplicates gives a strictly sorted list of the same records |
| Gather.StaticInformation.Gather | utils/print-introspected-doxygen.cc:185-192 | the output becomes strictly sorted and gains exactly the simple paths from the type |
| BCube.ConnectLevel0 | scratch/BCube.cc:259-277 | the loop attaches the hosts of the closed form and addresses the switch and its hosts in turn |
| BCube.ConnectLevel1 | scratch/BCube.cc:286-321 | the patched counters realise the closed form; addresses as on level 0 |
| BCube.ConnectLevel2 | scratch/BCube.cc:330-368 | the patched counters realise the closed form; addresses as on level 0 |
| BCube.AttachedExactlyOnce | scratch/BCube.cc:259-368 | all host numbers are in range and each host is attached once per level, at the position of its digit |
| BCube.SwitchInRange | scratch/BCube.cc:259-368 | every host has such a switch on every level |
| BCube.HangsOn | scratch/BCube.cc:259-368 | a switch's list holds a host exactly when it is the host's number without that digit |
| BCube.SharedSwitch | scratch/BCube.cc:259-368 | two hosts share their switch of a level exactly when they differ in no other digit |
| BCube.AtMostOneSharedSwitch | scratch/BCube.cc:259-368 | distinct hosts share at most one switch |
| BCube.PathLowerBound | scratch/BCube.cc:259-368 | no path has fewer hops than the two hosts have different digits |
| BCube.Route | scratch/BCube.cc:259-368 | correcting digits gives a path of exactly that length, at most three switches |
| BCube.AddressesDistinct | scratch/BCube.cc:273-276 | no two interfaces get the same address |
| BCube.SubnetAddresses | scratch/BCube.cc:273-276 | the switch has address 1 of its subnet, and a host two more than its digit |
| BCube.AddressesFit | scratch/BCube.cc:273-276 | all assigned addresses are proper exactly up to 16 ports |
| Common.Assign | src/internet/helper/ipv4-address-helper.cc:97-162 | consecutive addresses from the base in device order |
| FatTree.ConnectHosts | scratch/Fat-tree.cc:277-297 | every edge subnet holds the switch and its hosts with consecutive addresses |
| FatTree.ConnectAggregation | scratch/Fat-tree.cc:304-324 | every aggregation link has the ends and base address of the closed form |
| FatTree.ConnectCore | scratch/Fat-tree.cc:331-352 | every core link has the ends and base address of the closed form |
| FatTree.CorePorts | scratch/Fat-tree.cc:333-352 | a core switch has exactly k links |
| FatTree.AggPorts | scratch/Fat-tree.cc:304-352 | an aggregation switch has exactly k links |
| FatTree.EdgePorts | scratch/Fat-tree.cc:277-324 | an edge switch has exactly k links |
| FatTree.HostCount | scratch/Fat-tree.cc:130 | there are k^3/4 hosts |
| FatTree.OneAggregationPerPod | scratch/Fat-tree.cc:333-337 | a core switch reaches a pod through exactly one aggregation switch |
| FatTree.CorePathCount | scratch/Fat-tree.cc:304-352 | two edge switches are joined by exactly (k/2)^2 paths over the core |
| FatTree.AddressesDistinct | scratch/Fat-tree.cc:293-348 | no two interfaces get the same address |
| FatTree.WhoGetsWhat | scratch/Fat-tree.cc:277-352 | the address of every switch, host and link end |
| FatTree.AddressesValid | scratch/Fat-tree.cc:293-348 | all addresses are proper exactly for k up to 126 |
| Racks.PlacementOnto | scratch/File-From-Graph-FileTM-MPI.cc:384-389 | a slot was created exactly when its rack exists, and it is that rack's place |
| Racks.PlacementBijective | scratch/File-From-Graph-FileTM-MPI.cc:127-136 | every rack has a created slot and can be read off it |
| Racks.SharesAddUp | scratch/File-From-Graph-FileTM-MPI.cc:385-389 | the containers hold as many racks as there are |
| Racks.ReadTopology | scratch/File-From-Graph-FileTM-MPI.cc:224-281 | succeeds exactly for acceptable files with contiguous racks, and then leaves links, sorted hosts and the last rack of each host |
| Racks.AcceptableIs | scratch/File-From-Graph-FileTM-MPI.cc:230-253 | a file is acceptable exactly when no line is ambiguous and every host line names a rack reached by an earlier network edge |
| Racks.NumTorIs | scratch/File-From-Graph-FileTM-MPI.cc:237 | the number of racks is one more than the largest in a network edge |
| Racks.NeighboursInOrder | scratch/File-From-Graph-FileTM-MPI.cc:263-266 | the neighbours of a rack are the far ends of its lines in file order |
| Racks.HostsFrom | scratch/File-From-Graph-FileTM-MPI.cc:267-270 | the hosts of a rack are those the file puts there |
| Racks.LastRack | scratch/File-From-Graph-FileTM-MPI.cc:249 | a host belongs to the rack of its last line |
| Racks.NoCollisionExactly | scratch/File-From-Graph-FileTM-MPI.cc:297-334 | no two interfaces get the same address if and only if the three blocks of last octets stay apart for every rack from the 32769th on |
| Racks.NoCollision | scratch/File-From-Graph-FileTM-MPI.cc:297-334 | so with at most 32768 racks no two interfaces get the same address |
| Racks.CollidingFile | scratch/File-From-Graph-FileTM-MPI.cc:297-301 | a file of three lines that is read without complaint and gives two interfaces the same address |
| Racks.OctetsFit | scratch/File-From-Graph-FileTM-MPI.cc:297-334 | all octets are proper exactly when every rack has few enough hosts and neighbours, and none at all from the 65537th rack on |
| Racks.HostAddressIsItsOwn | scratch/File-From-Graph-FileTM-MPI.cc:302-328 | the address computed from a host's number is the second of its own link exactly when the file's last word on the host is that rack |
| Racks.ReadIsLinkable | scratch/File-From-Graph-FileTM-MPI.cc:224-270 | after a read every neighbour is a rack that was counted |
| Racks.ConnectHosts | scratch/File-From-Graph-FileTM-MPI.cc:525-535 | every host is wired to the switch created for its rack, with the addresses of that interface pair, and that switch is always in its container |
| Racks.ConnectSwitches | scratch/File-From-Graph-FileTM-MPI.cc:546-559 | the switch created for every rack is wired to that created for each neighbour, and neither is ever missing |
| Racks.TorOfIs | scratch/File-From-Graph-FileTM-MPI.cc:127-136 | the switch fetched for a rack is in the container of an existing rank, within its share, and is the one created for that rack |
| Racks.HostWiredWithItsAddress | scratch/File-From-Graph-FileTM-MPI.cc:302-328 | a host's end of its link has the address looked up for the host exactly when that rack is its last |
| Racks.WiredAsListed | scratch/File-From-Graph-FileTM-MPI.cc:546-559 | one switch is wired to another exactly when the file has that line |
| RadUtil.Int2BinCorrect | bindings/python/rad_util.py:90-105 | for positive widths the binary form if the number fits, ValueError otherwise |
| RadUtil.Int2BinWidthZero | bindings/python/rad_util.py:100-102 | with width 0 nothing is rejected or cut |
| RadUtil.Int2BinLaw | bindings/python/rad_util.py:74-105 | the documented behaviour holds for all numbers exactly for positive widths |
| RadUtil.BinaryRoundTrips | bindings/python/rad_util.py:74-130 | int2bin and bin2int undo each other |
| BinaryRange.Ripple | bindings/python/rad_util.py:649-659 | the carry turns the trailing ones and the zero before them around, and overflow is flagged exactly for all ones |
| BinaryRange.CarriedValue | bindings/python/rad_util.py:649-659 | that adds one, or starts again after the largest number |
| BinaryRange.Run | bindings/python/rad_util.py:639-660 | all 2^b strings of width b in counting order; nothing for width 0 |
| Permutations.Run | bindings/python/rad_util.py:310-326 | the nested loops compute Perms |
| Permutations.PermsCount | bindings/python/rad_util.py:310-326 | n! results |
| Permutations.EachIsRearrangement | bindings/python/rad_util.py:310-326 | each result is a rearrangement of the input |
| Permutations.EveryRearrangement | bindings/python/rad_util.py:310-326 | every rearrangement is a result |
| Permutations.PermsDistinct | bindings/python/rad_util.py:310-326 | from distinct elements the results are pairwise different |
| Timeline.TimelineDataRange.Search | utils/grid.py:49-61 | the loop computes RangeIndex; on ordered ranges, touching or not, it finds a covering range exactly when there is one |
| Timeline.TimelineDataRange.GetRangesBounds | utils/grid.py:77-87 | the four cases of found and missing ends, for any list |
| Timeline.TimelineDataRange.GetRanges | utils/grid.py:66-76 | the slice between those bounds, for any list |
| Timeline.NothingMissed | utils/grid.py:66-76 | with one end covered, an overlapping range is returned unless it touches another at an end of the query |
| Timeline.FittingQueriesExact | utils/grid.py:66-76 | all queries that fit are answered exactly if and only if no two ranges touch |
| Timeline.RangesExact | utils/grid.py:66-76 | exactly the overlapping ranges are returned if and only if the query fits the ranges and the outer of two touching ranges was found |
| Timeline.RangesExactApart | utils/grid.py:66-76 | when no ranges touch, if and only if the query fits |
| Timeline.PointQuery | utils/grid.py:66-76 | a query for a point returns at most one range |
| Timeline.TimelineEvent.Search | utils/grid.py:101-113 | the loop computes EventIndex; on sorted events, simultaneous or not, it is an event at the key if there is one and separates earlier from later ones |
| Timeline.TimelineEvent.GetEvents | utils/grid.py:116-119 | the slice between two such positions, the second included, for any list |
| Timeline.AllQueriesExact | utils/grid.py:116-119 | all queries give the events in their window, and the first one after a gap, if and only if no events are simultaneous |
| Timeline.EventsExact | utils/grid.py:116-119 | the events in the window, and the first one after it when no event is at its end or between its end and a later start, if the searches found the outer simultaneous events; only if they did for a start not after the end |
| Timeline.EventsExactApart | utils/grid.py:116-119 | the same without condition when no events are simultaneous |
| Timeline.MomentQuery | utils/grid.py:116-119 | a query for a moment returns at most one event |
| Patches.ParsePatchset | utils/check-style.py:221-265 | the loop computes Steps and fails exactly when Steps does |
| Patches.ClassifyLine | utils/check-style.py:157-165 | a written line is read as itself unless it looks like a file header |
| Patches.ClassifyHeader | utils/check-style.py:193-195 | a written chunk header is read with its two positions |
| Patches.ParsedChunks | utils/check-style.py:240-263 | the chunks of all patches are the chunks of the file in order, each body line in the chunk whose header was read last before it |
| Patches.WriteChunk | utils/check-style.py:177-197 | writes the header with the lengths of the two sides and then every line |
| Patches.WritePatchTo | utils/check-style.py:215-219 | writes the two names and then every chunk |
| Patches.RoundTrip | utils/check-style.py:157-265 | writing to a file and reading it gives the same patch set if and only if no line looks like a file header and nothing contains a newline |
| Patches.HeaderCounts | utils/check-style.py:177-195 | the numbers read back from a written header are the two positions and the lengths of the source and destination sides |
| Patches.SideIs | utils/check-style.py:177-192 | a side has exactly the lines of the other two kinds |
| PatchLines.HeaderRead | utils/check-style.py:224-243 | four numbers in their places make a line a chunk header with the first and third, whatever follows |
| PatchLines.HeaderOnly | utils/check-style.py:224-243 | no other line is a chunk header |
| PatchLines.ReadSucceeds | utils/check-style.py:230-264 | reading fails exactly at a second name or chunk before any patch, a body line before any chunk, or an unknown line |
| PatchLines.ParsedHeadings | utils/check-style.py:231-246 | the names and the number of chunks of every patch, for any file that is read |

## Left out

- The ns-3 simulator: nodes, devices, bridges, routing, applications and statistics. Installing a link
  records its ends; `Ipv4AddressHelper::Assign` hands out consecutive addresses.
- Common.Assign: leaves out the helper's assertions on overflow and on duplicate addresses; what they
  check is proved in `AddressesDistinct` of `FatTree` and `BCube`, `FatTree.AddressesValid`,
  `BCube.AddressesFit`, `Racks.NoCollisionExactly` and `Racks.OctetsFit`.
- Integer widths: C++ `int` values are unbounded here, and `pow(n, k)` is exact.
- Address strings: an address is its octets; `toString` and its buffers are not modelled.
- A consumer of `find_cycles` that changes a yielded list before asking for the next one.
- The rest of `test.py`: building, configuration, conditions, reports and temporary files. A test is
  a skip flag and the code its run returns; each run is taken to end with one.
- `shlex`, `get_abbreviated_command`, the verbose display, opening files and starting processes in
  `shellcmd.py`: opening and starting succeed, and the k-th process started returns a given status.
  Directory names are joined as on POSIX. In the comparison with the shell a `cd` succeeds.
- Command, chunk and patch objects are values: the code never changes a committed command, and it
  reaches the current chunk and patch through one variable each, which the models keep as positions.
- ShellParse.Pipeline.ParseTokens: does not say what the fields hold after a failed assertion.
- The type registry of ns-3: a finite table of attributes, derivations and labels stands for it;
  `find_and_replace`, which makes the labels, is not modelled. `std::sort` and `std::unique` are
  stand-ins with the same result.
- Which traffic the topology scripts generate, and the loop of `BCube.cc` that draws a client at
  random until it differs from the server (with one port it does not end).
- The text of topology files: `atoi` and the search for separators; racks and hosts are non-negative.
- `gcf`, `lcm`, `reduce_fraction` and `gray_encode` of `rad_util.py`, which would add easy members;
  its floating-point functions.
- Timeline.RangesExact: says nothing of ranges that overlap one another; the search itself is modelled
  for any list.
- `sort` and `get_bounds` of the timelines; everything from `Color` on in `utils/grid.py`.
- `remove_trailing_whitespace_changes`, uncrustify and file handling in `utils/check-style.py`;
  a negative chunk position, which its own pattern cannot read back.
- The near copies of the topology scripts (`Fat-tree-Bilal.cc`, `Fat-tree-AlFares.cc`,
  `File-From-Graph.cc` and others).
