# Verified models of the simulator, its generators and its tools

A load-balancing simulator for data-centre networks builds its routes, its ToR-to-ToR path tables
and its step barrier before and during a run. Beside it stand a fat-tree generator, traffic
generators and a set of Python build and test tools. This project models the algorithms at their
heart and proves what they are relied on for. `dafny verify dfyconfig.toml` checks everything.

| module | subject |
|---|---|
| Common | optional values, and lists without repetition |
| Network, Routing, Forwarding | the graph with links that are up or down, the breadth-first route computation, the forwarding tables, link failure, and the journeys packets can make |
| Rtt, PairFigures, RttDirections | base round-trip times and bandwidth-delay products of host pairs, what they are made of link by link, and when they are the same from both sides |
| PathTables | the nested loops that walk the next hops and pack each ToR-to-ToR path into 32 bits |
| Topology, FatTree, FatTreePorts, FatTreePaths | the topology reader, the fat-tree generator, the ports the reader gives its links, and all composed with routing and path tables |
| StepBarrier, CollectiveTraffic | the barrier between the steps of a collective, and the generators of its flows |
| Dependencies, Topsort, TopsortLevels | topological sorting, flat and by levels |
| Rotations, Cycles | all simple cycles of a graph, up to rotation |
| WorkerPool, WorkerPoolRuns, WorkerPoolResults | the worker threads of the test runner, all interleavings of them, and the results these bring |
| Shell, ShellGrammar, ShellRun, Directories | parsing and running command lines with pipes, `&&`, `||` and `cd`, the language that is accepted, and where a chain of `cd` leads |
| Distribution, CustomRand, FlowBins | a piecewise-linear distribution read both ways, its integral, and the bins cut from it |
| Permutations, BinaryRange | all rearrangements of a list; binary numbers as strings |

State that the source changes in place (the route tables, the 4-byte path buffer, the barrier's
counters, the parser's pipeline) is held in class fields, arrays or loop variables, and each method
is tied by its contract to a function or predicate over the state before it. The worker pool and
the barrier are also transition systems; theorems about them quantify over every run.

What follows from the proofs and is not said in the source:

- The path tables are complete for ToR switches two to four hops apart, and "Too large topology?"
  is printed exactly if some pair with a route is farther apart. For two ToRs with a direct link
  no path is found and no entry made, silently.
- The paths of a fat tree are exactly k/2 inside a pod and (k/2)^2 between pods, for every even k
  and every oversubscription, fractional ones included. An id holds one byte of each port, so the
  ids of these paths are all different if and only if k is at most 512; beyond, there are 256 and
  256^2 of them.
- On any network, path ids tell the paths of one length from one node apart if and only if no two
  links of a node have ports with the same low byte.
- Step ids with a gap stall the simulation at the gap: nothing is left to process and the stop test
  never holds.
- Two flows of one host in one step share a source port exactly if the host starts a multiple of
  65536 flows from one to the other.
- With one delay on all links, the delay of a host pair is the same from both sides. The round-trip
  time need not be, although it is written under both orders: it is, whatever shortest routes were
  found, if and only if all shortest routes between the two hosts take the same time to transmit.
  Eight nodes with one slow link give 410 from one side and 1130 from the other.
- The comment in bindings/python/topsort.py:109 says that what is left over after a failed sort has
  a child each. What is left over are the elements on a cycle or behind one; each has a predecessor
  left over, and each has a child if and only if no cycle leads to an element without. After
  (x,y), (y,x), (y,z) the childless z is left over.
- A command line joins stages to the right: `a && b || c` does not run `c` when `a` fails, as a
  shell would. The commands started are those of a shell, under all exit codes, if and only if no
  `&&` or `||` behind a command is followed by the other of the two, where the `&&` of a `cd` can
  be the one that follows: `a || cd x && b` is not run like a shell's, `cd x && a || b` is.
- A redirection at the end of a line may lack its file, and is then ignored; anywhere else the next
  token is the file, be it an operator.
- A `cd` at the end of a line, or without a directory, is parsed but makes the run raise an
  exception when it is reached.
- `getPercentileFromValue` undoes `getValueFromPercentile` on all percentiles exactly if the
  distribution starts at a value of 0 or more, and `getIntegralY` rises exactly then; the bins need
  no such condition.
- `int2bin(i, 0)` accepts every number, and `binary_range(0)` is empty.

## Model

| member | source | states |
|---|---|---|
| Network.DistanceSymmetric | scratch/network-load-balance.cc:744-762 | the hop count between two nodes is the same computed from either of them, and defined from one exactly if it is from the other |
| Network.PotentialIsDistance | scratch/network-load-balance.cc:747-762 | a map that falls by one along some link from every node and never by more along any is the distance to the host: the reference the fat-tree distances are checked against |
| Routing.SearchIsShortest | scratch/network-load-balance.cc:740-764 | once every relay queued has been expanded, no route is shorter than the distance recorded |
| Routing.First | scratch/network-load-balance.cc:749-763 | a neighbour seen first keeps the search sound: queue ordered and duplicate-free, next hops exact for what has been looked at, one shortest route witnessing delay, transmit delay and bandwidth together |
| Routing.Again | scratch/network-load-balance.cc:761-763 | a neighbour seen again one hop farther adds exactly one equal-cost next hop and keeps the search sound |
| Routing.Finish | scratch/network-load-balance.cc:740-764 | an exhausted queue means exact distances, exact next hops and attained figures for every node with a route |
| Routing.Router.Explore | scratch/network-load-balance.cc:723-764 | the growing-queue search ends, with the distances, next hops and figures of shortest routes through switches only, for the host given and no other |
| Routing.Router.CalculateRoute | scratch/network-load-balance.cc:723-774 | `dis` is defined exactly for nodes with an up-link path whose interior is switches, and least; `nextHop[v][host]` lists each neighbour one hop nearer that relays exactly once; one shortest path attains pair delay, transmit delay and bandwidth at once, in numbers that PairFigures spells out; other destinations keep their entries |
| Routing.Router.CalculateRoutes | scratch/network-load-balance.cc:775-782 | after the loop every host, and nothing else, is a destination with exact routes and figures |
| Routing.Router.SetRoutingEntries | scratch/network-load-balance.cc:787-810 | every table holds exactly the ports of the recorded next hops, in their order |
| Routing.Router.TakeDownLink | scratch/network-load-balance.cc:814-837 | on an up link the routes, figures and tables afterwards are those of the network without it; on a link already down the network, the routes, the figures of all pairs and the tables stay as they were |
| Routing.Router.Reroute | scratch/network-load-balance.cc:1691-1692 | routes, figures and tables computed from nothing are exact, whatever the tables held before |
| Forwarding.RoutesUnique | scratch/network-load-balance.cc:723-782 | two computations of the routes of one network agree on every distance and on every set of next hops with multiplicity, so recomputing after a failure equals computing from scratch |
| Forwarding.TableChoices | scratch/network-load-balance.cc:787-810 | a node may send a packet to a neighbour exactly if it is up, relays, and is one hop nearer to the destination |
| Forwarding.PacketArrives | scratch/network-load-balance.cc:755-763 | whatever recorded next hop is taken at each node, a packet visits no node twice, passes through switches only, and has arrived exactly after `dis` hops |
| Forwarding.NeverStuck | scratch/network-load-balance.cc:787-810 | a packet with a route that has not arrived can always be sent on |
| Forwarding.AfterLinkDown | scratch/network-load-balance.cc:814-837 | after a failure no host is nearer or newly reachable, and no table sends over the link in either direction |
| Rtt.HostPairFigures | scratch/network-load-balance.cc:1697-1716 | every pair of hosts has its round-trip time and product recorded under both orders, and the two maxima bound all of them and are attained |
| PairFigures.TxTimeIs | scratch/network-load-balance.cc:750-751 | the transmit time of a link is the number of whole nanoseconds, and no more, that the payload's bits take at the link's rate |
| PairFigures.FiguresExplained | scratch/network-load-balance.cc:749-774 | the delay and transmit delay recorded for a pair are the sums of the link delays and of those times over the links of one shortest route, and the bandwidth is the least of its links', for any 64-bit rates |
| PairFigures.HostPairExplained | scratch/network-load-balance.cc:1697-1716 | what is recorded for two hosts: under both orders twice the delays plus once the transmit times of a shortest route from the first to the second, and that time at the route's least bandwidth in whole bytes |
| PairFigures.NothingFound | scratch/network-load-balance.cc:1697-1716 | two hosts for which no route was found get a round-trip time and a product of 0, under both orders |
| Rtt.UniformDelaySymmetric | scratch/network-load-balance.cc:1446-1711 | with one delay on every link the hops and the delay of two hosts are the same both ways, the delay being the hops times that of a link |
| Rtt.UniformRtt | scratch/network-load-balance.cc:1700-1711 | with one delay and one bandwidth both figures depend on the hop count alone and are the same from either host |
| RttDirections.RttSymmetricIff | scratch/network-load-balance.cc:1700-1711 | with one delay, and one bandwidth in both directions of each link, all figures that shortest routes can give agree on the round-trip time of a host pair with a route from both sides if and only if all shortest routes between the two take the same time to transmit |
| RttDirections.UniformOneTransmit | scratch/network-load-balance.cc:1700-1711 | they do so wherever all links have one bandwidth |
| RttDirections.DirectionsDiffer | scratch/network-load-balance.cc:1700-1711 | a network with one delay and one slow link, and on it exact routes and figures that give two hosts a round-trip time of 410 from one side and 1130 from the other |
| Topology.InstallLinks | scratch/network-load-balance.cc:1431-1500 | the interface between any two nodes is the one made by the last line that joins them: its port counts the devices the node had by then, its rate is that of the line, its delay that of the file |
| Topology.InstalledIs | scratch/network-load-balance.cc:1431-1500 | the interface two nodes have is up and has the rate of the last line that joins them, the delay of the file, and the port counted when that line was read |
| Topology.ReadNetwork | scratch/network-load-balance.cc:1363-1500 | what has been read is well formed, has distinct ports, links exactly the pairs of the file in both directions, at one rate each and one delay throughout, whatever the rates of the lines |
| Topology.AssignToRs | scratch/network-load-balance.cc:1722-1751 | each host is assigned the switch of its last host-first line, and nothing else is assigned |
| Topology.TorIsLast | scratch/network-load-balance.cc:1738-1751 | the switch assigned is that of the last line that names the host before a switch |
| PathTables.RouteViaTor | scratch/network-load-balance.cc:1774-1781 | behind a single-homed host, routes to the host are routes to its ToR and one hop |
| PathTables.HopsNearTor | scratch/network-load-balance.cc:1789-1790 | the test `size() == 1 && nexts[0] is the ToR` holds exactly at distance two from the host |
| PathTables.WalkIsShortest | scratch/network-load-balance.cc:1786-1853 | every walk along recorded next hops to the ToR is a shortest switch path of the distance |
| PathTables.ShortestIsWalk | scratch/network-load-balance.cc:1786-1853 | and every shortest switch path is such a walk |
| PathTables.WalkIffShortest | scratch/network-load-balance.cc:1786-1853 | so the walks are exactly the shortest switch paths |
| PathTables.ThirdHops | scratch/network-load-balance.cc:1852-1886 | the innermost loop adds exactly the ids of its four-hop paths to the entry, keeps the bytes beyond the last port zero, and stops the program exactly if the ToR is farther |
| PathTables.SecondHops | scratch/network-load-balance.cc:1815-1886 | the same for the middle loop: three- and four-hop paths, and no stale byte in the shared buffer |
| PathTables.FirstHops | scratch/network-load-balance.cc:1783-1886 | all paths towards one host: the program stops exactly if its ToR is more than four hops away, otherwise exactly the ids of all walks and the base round-trip time of their length are in the entry |
| PathTables.PathsCompleteEntry | scratch/network-load-balance.cc:1773-1886 | the entry of a ToR holds exactly the packed ports of all shortest paths of two to four hops and the round-trip time 2 * hops * one_hop_delay, also after further hosts behind it were processed |
| PathTables.BuildPathTables | scratch/network-load-balance.cc:1753-1892 | the whole construction ends without the assertion exactly if no ToR pair with a route is more than four hops apart, and then every ToR has a complete entry for the ToR of each remote host two hops away or more, with the round-trip time 2 * hops * one_hop_delay, and none for others |
| PathTables.PathIdUnpacks | scratch/network-load-balance.cc:1796-1863 | unpacking an id gives the low bytes of the ports to take along the path, and the ports themselves if and only if they are below 256 |
| PathTables.IdsNamePathsIff | scratch/network-load-balance.cc:1796-1863 | paths of one length from one node have different ids if and only if no two links of a node have ports with the same low byte |
| PathTables.PathIdFits | scratch/network-load-balance.cc:1784-1785 | an id of two to four ports fits in 32 bits |
| FatTree.IdInjective | config/fat_topology_gen.py:32-35 | servers, ToR, aggregation and core switches get ids that never coincide |
| FatTree.SwitchLines | config/fat_topology_gen.py:50-68 | the second and third loop nests write exactly the lines of the loop positions passed, k * (k/2)^2 each |
| FatTree.Generate | config/fat_topology_gen.py:10-88 | the file's lines are exactly the links of a k-ary tree, in the order of the three loop nests, and its header counts them; its switch list is the 5 * (k/2)^2 ids after the servers of all pods; the servers of a pod number (k/2)^2 and the host lines of every ToR k/2 times the oversubscription, each without its fraction |
| FatTreePorts.PortsOfTree | scratch/network-load-balance.cc:1431-1500 | the port the reader gives each link of the generated file: servers below, in their order, before the switches above, in theirs |
| FatTreePaths.LinkIsAdjacent | config/fat_topology_gen.py:42-68 | two ids are linked exactly if their places are adjacent in the tree |
| FatTreePaths.TreeDistances | config/fat_topology_gen.py:42-68 | the exact distance from every node to every server |
| FatTreePaths.ArchesOnly | config/fat_topology_gen.py:50-57 | inside a pod the two-hop paths between ToRs are exactly those over an aggregation switch of the pod |
| FatTreePaths.HighArchesOnly | config/fat_topology_gen.py:60-68 | between pods the four-hop paths are exactly those over one core switch and the aggregation switches in its row |
| FatTreePaths.PathsInsidePod | scratch/network-load-balance.cc:1783-1813 | between two ToRs of one pod there are k/2 path ids if and only if k is at most 512, and 256 beyond, with the round-trip time 4 * one_hop_delay |
| FatTreePaths.PathsBetweenPods | scratch/network-load-balance.cc:1852-1886 | between ToRs of different pods there are (k/2)^2 if and only if k is at most 512, and 256^2 beyond, with the round-trip time 8 * one_hop_delay |
| FatTreePaths.NeverTooLarge | scratch/network-load-balance.cc:1882-1885 | on the generated tree the assertion is unreachable |
| FatTreePaths.TreeRead | scratch/network-load-balance.cc:1363-1500 | what the reader makes of the generator's file is the tree with every host behind its ToR and the ports of FatTreePorts |
| FatTreePaths.FatTreeTables | scratch/network-load-balance.cc:1691-1892 | generator, reader, routing and path tables composed: for every even k and oversubscription of 0 or more it ends, and every entry between ToRs holds exactly the ids of the two-hop or four-hop paths, min(k/2, 256) or its square of them, and 4 or 8 times one_hop_delay |
| StepBarrier.Barrier.constructor | scratch/network-load-balance.cc:1963-1968 | hosts start with source port 10000 and destination port 100, and nothing is scheduled or in flight |
| StepBarrier.Barrier.PreloadCollectiveFlows | scratch/network-load-balance.cc:225-252 | the first flow_num lines of the file are sorted without loss into the steps that the whole parts of their last columns name, and step 0 is scheduled if there are flows: an initial state |
| StepBarrier.Barrier.ExecuteStep | scratch/network-load-balance.cc:254-276 | one scheduled call is exactly the step the theorems below are about; flow i that it puts into the network is task i of the step, between its hosts, from the ports their counters have come to |
| StepBarrier.Barrier.RxFlowFinish | scratch/network-load-balance.cc:564-631 | one completed flow likewise |
| StepBarrier.Barrier.StopSimulationMiddle | scratch/network-load-balance.cc:696-718 | the periodic check, which compares two numbers, stops the simulation exactly when in every step as many flows have finished as the file lists for it, and then nothing is in flight or scheduled |
| StepBarrier.StepInv | scratch/network-load-balance.cc:254-631 | every event keeps the invariant of the barrier |
| StepBarrier.BarrierHolds | scratch/network-load-balance.cc:254-631 | in every run, while a flow of a step is in flight all flows of all earlier steps have finished, only that step is in flight, and steps were started in order, once each |
| StepBarrier.FlowsConserved | scratch/network-load-balance.cc:601-620 | in every run in-flight and finished flows of the active step make up its total, and the global count is the sum of the step counts |
| StepBarrier.TasksConserved | scratch/network-load-balance.cc:254-631 | in every run the tasks in flight and the tasks received of a step that was started are together, as multisets, the tasks the file lists for it; of other steps there are none; and the counters count what was received |
| StepBarrier.StopsExactly | scratch/network-load-balance.cc:696-718 | the stop test holds exactly when every flow of every step has finished, and then nothing is pending |
| StepBarrier.RunEnds | scratch/network-load-balance.cc:618-629 | a run goes on until nothing is pending; then the stop test holds exactly if the step ids have no gap, and otherwise the run has stalled at the first missing id with exactly the steps below it finished |
| StepBarrier.RunLength | scratch/network-load-balance.cc:254-631 | no run has more than 2 * flow_num + 2 states |
| StepBarrier.LaunchFlows | scratch/network-load-balance.cc:260-275 | the loop over a step's tasks installs one flow for each, with its source, destination, priority and size and with both ports counted on modulo 2^16, and nothing else |
| StepBarrier.PortsAfter | scratch/network-load-balance.cc:261-262 | the source and destination port counters of a host after a step: moved on by the flows it sends and receives, modulo 2^16 |
| StepBarrier.PortsClash | scratch/network-load-balance.cc:261-262 | two flows of a host in a step share a source port exactly if a multiple of 65536 flows of the host lie between |
| CollectiveTraffic.GenAllReduceRing | gen_scaleup_traffic.py:29-42 | 2(n-1) consecutive steps, in each of which every GPU sends one chunk to the next |
| CollectiveTraffic.GenAllToAll | gen_scaleup_traffic.py:16-27 | one flow of one chunk for each ordered pair of different GPUs, all in step 0 |
| CollectiveTraffic.RingReceives | gen_scaleup_traffic.py:36-41 | in each step every GPU receives from exactly one other |
| CollectiveTraffic.RingCompletes | gen_scaleup_traffic.py:29-42 | every run of the barrier on the flows of a ring of one GPU or more ends with all 2(n-1) steps started and the stop test passed |
| Dependencies.CountParents | bindings/python/topsort.py:77-90 | the counts and lists hold every pair with its multiplicity |
| Dependencies.SortedIsAcyclic | bindings/python/topsort.py:77-112 | pairs that have a sorted list have no cycle |
| Dependencies.LeftoverCycle | bindings/python/topsort.py:108-111 | elements each of which has a predecessor among them contain a cycle, and each of them lies on one or behind one |
| Dependencies.LeftoverIsTrapped | bindings/python/topsort.py:107-112 | what is left over when no order can go on are exactly the elements on a cycle or behind one |
| Dependencies.LeftoverChildren | bindings/python/topsort.py:107-112 | each of them has a child, as the comment there says, if and only if no cycle leads to an element without; pairs for which one does |
| Topsort.TopsortOf | bindings/python/topsort.py:77-112 | returns a duplicate-free list of all elements with parents before children exactly if the pairs are acyclic; otherwise raises with exactly the elements that lie on a cycle or behind one, each with a predecessor left over; no lookup misses a key |
| Topsort.LastPredecessor | bindings/python/topsort.py:100-103 | the next lowering brings a child's count to 0 if and only if its last predecessor is then done with, repeated pairs included |
| TopsortLevels.TopsortLevelsOf | bindings/python/topsort.py:157-232 | level i is exactly the elements whose longest predecessor chain has length i and no such level is missing, also before an error; the levels joined are a topological order; the error is raised exactly on cyclic pairs, with exactly the elements on a cycle or behind one |
| TopsortLevels.PeelLevel | bindings/python/topsort.py:203-212 | the elements without a remaining predecessor after n levels are those with a longest chain of n |
| Rotations.IsRotated | bindings/python/rad_util.py:761-775 | returns true exactly if one sequence is a rotation of the other |
| Rotations.RotationTransitive | bindings/python/rad_util.py:735-775 | rotation is transitive, as duplicate detection against one representative needs |
| Cycles.SearchFrom | bindings/python/topsort.py:351-385 | the search from one start ends and finds every cycle reachable from it, once up to rotation |
| Cycles.SearchedCovers | bindings/python/topsort.py:346-349 | a start that was searched has every reachable cycle found, so starts already visited may be skipped |
| Cycles.FindCycles | bindings/python/topsort.py:343-385 | ends, and yields every simple cycle exactly once up to rotation and nothing else |
| WorkerPoolRuns.StepInv | test.py:921-989 | every step of main, of any worker and of the interrupt handler keeps each dispatched job in exactly one place, poison behind all jobs, and results truthful |
| WorkerPoolRuns.NeverBlocked | test.py:1594-1737 | some thread can take a step by itself exactly until main has returned: neither the collecting `get` nor a `join` waits for ever |
| WorkerPoolRuns.EveryRunEnds | test.py:1288-1803 | with n jobs and P workers no run takes more than 6n + 3P + 5 steps, and one that cannot go on has returned |
| WorkerPoolRuns.EveryJobComesBack | test.py:1575-1619 | at the return each dispatched job has exactly one result, both queues are empty and all workers are gone |
| WorkerPoolRuns.OnePoisonEach | test.py:1575-1578 | each worker took exactly one poison job |
| WorkerPoolRuns.ReturnCode | test.py:1800-1803 | the run returns 0 exactly if every job was skipped as marked or ran to code 0; a result is broken off only after an interrupt |
| WorkerPoolResults.ResultsAreMade | test.py:921-989 | a result is collected if and only if one event of the run made it, with the code its job returned, or because of an interrupt before it was taken up, or because the job is marked; and each job has one such event |
| WorkerPoolResults.CodeFromEvents | test.py:1590-1803 | over the events of the run: it returns 0 if and only if every job that ran returned 0 and no worker took a job up after an interrupt |
| WorkerPoolRuns.Summarise | test.py:1590-1619 | every result falls under exactly one heading, and the code is 0 exactly if none failed, crashed, had valgrind errors or was broken off |
| Shell.ParseWellFormed | waf-tools/shellcmd.py:120-200 | every successful parse alternates commands and operators, command first and last, pipes its output exactly before a pipe, and has only && after cd |
| Shell.ParseUnparse | waf-tools/shellcmd.py:120-200 | a well-formed pipeline written as tokens, variables in any order, is parsed back to itself |
| Shell.ParsedIffWellFormed | waf-tools/shellcmd.py:120-200 | the pipelines that some line is parsed to are exactly the well-formed ones |
| ShellGrammar.ParsesIffLine | waf-tools/shellcmd.py:120-200 | a line is parsed to a pipeline if and only if it is written as, and means, that: assignments, a name, then arguments and redirections in any order with each stream redirected at most once and no output into a file and a pipe; or a cd with at most one directory and only && behind it; a redirection at the end without its file is ignored |
| Shell.EnvMatchIs | waf-tools/shellcmd.py:23 | the pattern of variables matches a token exactly if it is NAME=VALUE, of word characters and of non-blanks, perhaps with a newline behind, and gives back both parts |
| ShellRun.Pipeline.CommitCommand | waf-tools/shellcmd.py:100-103 | fails exactly without a command under way, else moves it to the pipeline |
| ShellRun.Pipeline.Parse | waf-tools/shellcmd.py:120-200 | the token loop over the object's fields succeeds exactly when the parse does and leaves its result, or what had been committed when an assertion failed |
| ShellRun.ExecPipedCommands | waf-tools/shellcmd.py:202-211 | the status of a pipe is that of its last command |
| ShellRun.Pipeline.Run | waf-tools/shellcmd.py:213-345 | result and started commands are those of right-nested short-circuit evaluation, for any exit codes |
| ShellRun.PlanIsTheLine | waf-tools/shellcmd.py:225-300 | what is evaluated are the commands in the order written, each in the directory all cd before it lead to, reading from a pipe exactly if one precedes it |
| Directories.JoinLeads | waf-tools/shellcmd.py:231 | a relative directory is looked up from the one before it, name by name, an absolute one from the root |
| Directories.CommandsLed | waf-tools/shellcmd.py:225-235 | each command is planned in the directory that the cd before it lead to, from the last absolute one on |
| ShellRun.RunsExactlyIf | waf-tools/shellcmd.py:228-235 | a parsed line returns a status under all exit codes exactly if each cd has a directory and none is last |
| ShellRun.ExitsWithLast | waf-tools/shellcmd.py:202-345 | that status is the exit code of the last command started |
| ShellRun.LikeAShell | waf-tools/shellcmd.py:308-345 | on a line whose cds are complete, the commands started are those a shell starts, which evaluates the line from the left with cd as a command that succeeds, if and only if every short-circuit operator behind the one that stops the run is the same as it |
| ShellRun.AlwaysLikeAShell | waf-tools/shellcmd.py:308-345 | so under all exit codes if and only if no short-circuit operator behind a command is followed by one of the other kind, the && of a cd included |
| ShellRun.CdAndShell | waf-tools/shellcmd.py:225-235 | on one line with a cd in the middle a single command is started where a shell starts two; a line that mixes the operators behind a leading cd is always run as by a shell |
| Distribution.CurveRises | traffic_gen/custom_rand.py:5-13 | the curve of an accepted distribution rises strictly in both directions |
| Distribution.ReadingsRise | traffic_gen/custom_rand.py:31-44 | both lookups are strictly increasing |
| Distribution.ValueOfPercentile | traffic_gen/custom_rand.py:31-44 | from a value in range to its percentile, within 0 to 100, and back |
| Distribution.InverseIffNonNegative | traffic_gen/custom_rand.py:31-44 | from every percentile to its value and back, if and only if the first value is not negative |
| CustomRand.IntegralIsIntegral | traffic_gen/custom_rand.py:45-56 | over any stretch getIntegralY grows between stretch times value at its beginning and stretch times value at its end: it is the integral of the values |
| CustomRand.IntegralRises | traffic_gen/custom_rand.py:19-56 | it starts at 0, ends at getAvg and stays there above 100 percent, and is monotone if and only if the first value is not negative |
| CustomRand.CustomRand.TestCdf | traffic_gen/custom_rand.py:5-13 | accepts exactly the strictly increasing lists from 0 to 100 percent |
| CustomRand.CustomRand.SetCdf | traffic_gen/custom_rand.py:14-18 | keeps the old distribution exactly if the new one is refused |
| CustomRand.CustomRand.GetAvg | traffic_gen/custom_rand.py:19-27 | the area under the whole curve over 100 |
| CustomRand.CustomRand.GetPercentileFromValue | traffic_gen/custom_rand.py:31-38 | a point of the curve for every value in range and not negative, -1 out of it |
| CustomRand.CustomRand.GetValueFromPercentile | traffic_gen/custom_rand.py:39-44 | a point of the curve for every percentile, nothing above 100 |
| CustomRand.CustomRand.GetIntegralY | traffic_gen/custom_rand.py:45-56 | the area up to a percentile |
| FlowBins.HalfWay | traffic_gen/flow_bins.py:41-43 | half the size lies at a percentile strictly between the two around it |
| FlowBins.BuildBins | traffic_gen/flow_bins.py:28-49 | ends for every accepted distribution, never finds a negative percentile, and its bins are the sizes met by stepping down from 100 percent, without immediate repetitions: each step starts at the percentile where the last one ended and goes one percentile down or, above 1000, to that of half the size, whichever leaves the greater size; they fall strictly from the greatest value to that at one percent |
| FlowBins.NeverBelowHalf | traffic_gen/flow_bins.py:40-43 | from a size above 1000 the next bin is at least half of it |
| Permutations.PermutedCount | bindings/python/rad_util.py:310-326 | n! lists are returned |
| Permutations.PermutedAre | bindings/python/rad_util.py:310-326 | a list is returned exactly if it is a rearrangement of the input |
| Permutations.PermutedOnce | bindings/python/rad_util.py:310-326 | each once exactly if the input repeats no item |
| Permutations.Permutations | bindings/python/rad_util.py:310-326 | the nested loops return these lists |
| BinaryRange.Int2BinIs | bindings/python/rad_util.py:91-105 | for n >= 1 a number has an n-digit string exactly if it is 0 or more and below 2^n, and bin2int reads it back; a larger number and a negative one raise different errors |
| BinaryRange.Int2BinNoWidth | bindings/python/rad_util.py:96-105 | for n == 0 every number from 0 on is accepted, written with four digits for each of its hexadecimal ones, and read back |
| BinaryRange.SameValue | bindings/python/rad_util.py:108-130 | digits are determined by number and width |
| BinaryRange.BinaryRange | bindings/python/rad_util.py:639-660 | for bits >= 1 exactly 2^bits strings, the i-th of them int2bin(i, bits) |

## Left out

- Order of equal-cost next hops and of table entries: maps keyed by pointers and dictionaries are iterated in an arbitrary order here, so nothing is stated about it.
- Integer widths in routing: distances, delays and products of round-trip time and bandwidth are unbounded; 64-bit wrap-around is not modelled. The 16-bit port counters and the 8-bit ports of a path id are.
- Insertions by operator[] into the next-hop and neighbour maps while they are read: a missing entry reads as empty, and is not added.
- Path tables of the three load balancers are one entry here, with the base round-trip time present for ConWeave only; reading the four bytes as a 32-bit number is little-endian. The program does not rebuild path tables after a link failure, and neither is anything stated about them then.
- Hosts with several links and links given switch-first: path tables are modelled for hosts behind one ToR, named first on their line, as the generator writes them.
- Topology.ReadNetwork: a data rate of 0, by which the program divides, and node ids beyond the header are excluded.
- Link latency: the reader's assertion that it equals one_hop_delay is a parameter, as the generator writes a constant of its own.
- Round-trip times and products of pairs cut off by a failure keep their old values in the program; nothing is stated about them.
- Devices, addresses, packets, congestion control, redistribution of queue pairs, tracing and monitoring behind the network simulator are not part of this model. A flow in flight is received once, in any order, with its own step id.
- StepBarrier.Barrier.PreloadCollectiveFlows: flow files with fewer lines than their header says, and step values of -1 and below or 2^32 and above, whose conversion C++ leaves undefined, are not modelled, and neither is a second call on the same object; the program makes one.
- Lazy generators of topsort_levels and find_cycles: what they yield is collected in a list, with the error raised at its end.
- Rotations.IsRotated: two empty sequences raise an exception in the source and are excluded.
- The worker pool takes job execution to return, with any code; writing of result files, output and durations are left out, and queue operations are atomic steps. The skip mark of a job is fixed before it is queued.
- Splitting a command string into tokens by the shlex library, files, environment, failing process starts and verbose output of run are left out; exit codes of commands are given. shellcmd.py uses an undefined variable in verbose mode.
- CustomRand.CustomRand.TestCdf: an empty list raises an exception in the source and is excluded.
- Rounding of floating-point numbers in the distribution and the bins; reading and sorting of files, and random sampling itself.
- BinaryRange.Int2BinIs: bin2int is modelled on digits 0 and 1; Python's int() also accepts signs, spaces and a prefix.
- Greatest common factors, fractions, Gray codes, common prefixes and uniquify of rad_util.py are closed calculations that nothing outside that file calls; the type-graph walk of utils/print-introspected-doxygen.cc writes documentation. Neither is modelled.
- Plotting, analysis, configuration parsing, file output and generated bindings.
