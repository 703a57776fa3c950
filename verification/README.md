# SD-Route, modelled and proved in Dafny

SD-Route is a controller for software-defined networks. This project models the parts of it that decide where
packets go, and proves what they promise for every input, every random choice and every order of events.

- **Paths.** `PathSearch` is the explicit-stack search for loop-free paths. `Crossing`, `Redundancy` and
  `GeneticPaths` are the genetic algorithm that splices, de-loops and mutates paths; `Shortcuts` says what cutting loops
  out comes to, and `GeneticSteps` what a generation does to a population. `ShortestPaths` is the array Dijkstra that
  `Dijkstra` and `MulticastTree` share, with its finite "infinity".
- **Multicast trees.** `MulticastTree` builds the tree a chromosome selects and pays for its edges;
  `GeneCrossing` and `MulticastGenetics` evolve the chromosomes.
- **Flow tables.** `FlowTables` says what a flow entry does to a packet. `UnicastRoutes`, `NatRoutes`,
  `MulticastFormat` and `MulticastRoutes` compile paths and trees to entries; `MulticastDelivery` and
  `MulticastEndToEnd` prove what the entries do to packets, in every order in which the switches act.
- **Multi-objective search.** `Dominance`, `DominationCounts`, `NonDominatedSort`, `CrowdingSort` and `NewPopulation`
  are one round of NSGA-II.
- **Router.** `Prefixes`, `AddressTables`, `RouteTables`, `VlanRouting`, `VlanDeletion` and `VlanRouters` are the prefix
  tables of a VLAN and their mirror image in the switch. A run sets and deletes routes and addresses and learns the
  hardware addresses of gateways.
- **Protocols.** `ArpHandler` and `ArpFlooding` are All-Path ARP flooding; `IgmpState`, `IgmpMembers` and `Igmp` are the
  IGMP querier with its soft state, which does for every member what that member's own history says.

Random draws are parameters or arbitrary choices, a number drawn from `n` being taken modulo `n`; floats are reals, a
dictionary is looked through in an arbitrary order, and each event handler runs without interruption between two sleeps.
A flow-mod replaces the entry with the same match and priority, as section 6.4 of the OpenFlow Switch Specification 1.3.0
has it.

Some promises turn out not to hold as one would expect; the code is modelled as it is, and the exact condition is
proved.

- Crossing two paths that share one inner vertex crosses at the destination, so the two paths at most change places
  (`Crossing.ListCross`).
- Address translation works exactly for paths of three or more switches on which the user's switch passes the access
  test and the server's switch does not (`NatRoutes.TransparentExactly`). The test looks the user's port number up at
  the server's switch too, which goes wrong for `NatRoutes.SamePortNumber`. The replies answer what the user sent exactly
  if he sent it to port 80 (`NatRoutes.Conversation`).
- The search reports a direct link even when the bound is below 2 (`PathSearch.FindPathDfs`).
- A route written with netmask 0 in another way than "0.0.0.0/0" takes the place of an existing default route in the
  table but not in the switch. That is the only case in which adding a route puts the two out of step, whatever the
  route's id (`VlanRouting.AddMirror`, `VlanRouters.StaleDefault`). Other non-canonical destinations are harmless.
- Packets from elsewhere to one of the router's own networks are meant for the flow that learns hardware addresses. It
  is ahead of the default route's and the drop flow, but of no static route's flow (`VlanRouting.AddressAhead`).
- The tenth attempt to cut the loops out of a link is made, but its result is thrown away (`GeneticSteps.FirstCut`).
- The shuffle before the crossover of chromosomes swaps every place with a strictly earlier one, so that none keeps its
  own place (`GeneCrossing.Shuffle`).
- Crossing two paths at vertices they have in opposite order changes nothing and yet returns True (`Crossing.Rebind`).
- The domination counters give the right fronts exactly if nobody among the best is listed twice
  (`NonDominatedSort.FastNondominateSort`). In the first round everybody is (`NonDominatedSort.SharedObjectsFail`).
- `pareto_rank` is 1 for everyone behind the first front (`NonDominatedSort.FastNondominateSort`).
- The crowding distances cannot be computed for a front of three or more individuals that all have delay 0, and the
  ends of a front get no distance instead of an infinite one (`CrowdingSort.CrowdFront`, `NewPopulation.NoDelayRound`).
- A request whose source is one of its destinations never gets a tree (`MulticastTree.HasTreeMeaning`).
- The sentinel fitness means "no tree" exactly if the distinct edges of the tree do not happen to cost just that much
  and, for a request without destinations, no edge at the source is selected (`MulticastTree.SentinelExactly`). It fails
  for `MulticastTree.TreeAtSentinel` and `MulticastTree.NoDestinations`; with a destination, and all edges together
  costing less than the sentinel, it holds for every chromosome (`MulticastTree.SentinelSafe`).
- Mutation aborts exactly if some link draws a place whose predecessor has no second neighbour, or a neighbour with no
  short enough path to the destination (`GeneticPaths.GAPopulation.Mutate`).
- A report does not take back a leave (`IgmpMembers.ReportDoesNotSave`, `Igmp.GoneAfterTimer`).
- Ids of more than 16 bits do not fit the cookie. A route is deleted exactly if it is asked for and its id is below
  65536 (`VlanRouters.VlanRouter.DeleteRoutingData`, `VlanDeletion.NeverDeleted`). Deleting routes takes the flows of an
  address along exactly if the high half of the address's id is asked for (`VlanDeletion.AddressesSpared`,
  `VlanDeletion.AddressLostWithRoute`).
- Deleting addresses keeps table and switch in step exactly if the id asked for, unless it is skipped, is neither 65536
  times the id of a route nor, without a default route, 0 (`VlanDeletion.AddressDeletionMirror`). Address 65536 takes
  the flow of route 1 away (`VlanRouters.RouteLostWithAddress`), address 0 the drop flow
  (`VlanRouters.DropLostWithAddress`).

`dafny verify dfyconfig.toml` checks the whole project.

## Model

| member | source | states |
|---|---|---|
| `PathSearch.FindPathDfs` | route_manage/route_algorithm/RouteAlgorithm.py:938-966 | The stack search ends and records precisely the loop-free paths within the bound, each once if no neighbour is listed twice |
| `PathSearch.ExploreExact` | route_manage/route_algorithm/RouteAlgorithm.py:938-966 | A path is recorded through a candidate list exactly if it extends the current prefix by a candidate to a wanted path |
| `PathSearch.ExploreOnce` | route_manage/route_algorithm/RouteAlgorithm.py:938-966 | No path is recorded twice |
| `PathSearch.Complete` | route_manage/route_algorithm/RouteAlgorithm.py:938-966 | From the source, the recorded paths are all and only the wanted ones |
| `Crossing.ListCross` | route_manage/route_algorithm/RouteAlgorithm.py:264-359 | For every draw, by the number of shared vertices: nothing happens, the paths stay or change places, or the sections between the two drawn shared vertices are exchanged; and what is returned |
| `Crossing.CrossAtOne` | route_manage/route_algorithm/RouteAlgorithm.py:297-320 | With three shared items the two paths change places if the front is drawn and stay otherwise |
| `Crossing.CrossBetween` | route_manage/route_algorithm/RouteAlgorithm.py:321-359 | The sections are exchanged if both paths have the two vertices in the same order; otherwise the lists stay |
| `Crossing.Rebind` | route_manage/route_algorithm/RouteAlgorithm.py:340-359 | In opposite order only local names change, and yet True is returned |
| `Crossing.ListCrossedKeeps` | route_manage/route_algorithm/RouteAlgorithm.py:264-359 | Whatever crossing does, the two paths keep their vertices together |
| `Crossing.CrossedKeeps` | route_manage/route_algorithm/RouteAlgorithm.py:264-359 | Both results are walks between the same ends with no vertex more than twice, and together they keep every vertex |
| `Crossing.ExchangeIsSplice` | route_manage/route_algorithm/RouteAlgorithm.py:344-350 | One exchange of sections between shared vertices gives such a walk |
| `Redundancy.RemoveRedundancy` | route_manage/route_algorithm/RouteAlgorithm.py:384-528 | For every coin sequence the result is that of the jumping walk: from each repeated vertex on it goes to the first or the last occurrence as the coin says, gives up at a vertex it has used, and ends with what lies behind everything repeated. False, or a loop-free path with the same ends whose every hop is a hop of the input; a loop-free input comes back unchanged; with second occurrences only it never fails |
| `Redundancy.SelectSections` | route_manage/route_algorithm/RouteAlgorithm.py:434-528 | The walk over the repeated positions assembles the sections of the jumping walk, and gives up exactly where that does; the turn counter never runs out |
| `Redundancy.FindExtremes` | route_manage/route_algorithm/RouteAlgorithm.py:409-421 | First and last repeated position, and the vertices there |
| `Redundancy.AssembledShortening` | route_manage/route_algorithm/RouteAlgorithm.py:440-528 | Well-formed sections assemble to a loop-free shortening of the input |
| `Redundancy.AssembleSimple` | route_manage/route_algorithm/RouteAlgorithm.py:440-528 | Assembled sections have no vertex twice |
| `Redundancy.AssembleSteps` | route_manage/route_algorithm/RouteAlgorithm.py:440-528 | Every hop of the assembled path is a hop of the input |
| `Redundancy.ShorteningKeepsWalk` | route_manage/route_algorithm/RouteAlgorithm.py:361-381 | A shortening of a walk is a walk in the same graph |
| `GeneticPaths.Select` | route_manage/route_algorithm/RouteAlgorithm.py:226-248 | Fewer than three paths stay; otherwise as many paths as before, each the first fittest of those drawn for it, or the one before it, or the fallback, when all drawn ones are infeasible |
| `GeneticSteps.FeasibleWins` | route_manage/route_algorithm/RouteAlgorithm.py:226-248 | Once one path is feasible, no infeasible one survives, whatever is drawn |
| `GeneticPaths.GAPopulation.Cross` | route_manage/route_algorithm/RouteAlgorithm.py:250-261 | The population is shuffled; each pair not passed over is crossed and the odd one stays; every link stays a walk with no vertex more than twice |
| `GeneticSteps.CrossingConserves` | route_manage/route_algorithm/RouteAlgorithm.py:250-359 | The paths of the population together keep exactly their vertices |
| `GeneticPaths.GAPopulation.RemoveRedundantLink` | route_manage/route_algorithm/RouteAlgorithm.py:361-381 | Every link becomes the first success of nine attempts with its coins, or else the first path the search reports; all are loop-free source-to-destination paths |
| `GeneticSteps.CleanStays` | route_manage/route_algorithm/RouteAlgorithm.py:361-381 | A loop-free link stays as it is |
| `GeneticPaths.GAPopulation.Mutate` | route_manage/route_algorithm/RouteAlgorithm.py:530-564 | What each link becomes for its draws; every link, mutated or not, is a walk between the same ends with no vertex more than twice, also when mutation aborts; it aborts exactly if some link draws a place or a neighbour it cannot go on from, and without dead ends never |
| `GeneticPaths.GAPopulation.MutateVertexSelect` | route_manage/route_algorithm/RouteAlgorithm.py:566-579 | The drawn inner place and the drawn neighbour of the vertex before it, another one than is replaced if neighbours are listed once; none exactly if there is no second neighbour |
| `GeneticPaths.GAPopulation.MutateFindNewPath` | route_manage/route_algorithm/RouteAlgorithm.py:590-619 | The prefix is continued by the first most similar path found, and its loops are cut out by the first of nine attempts that succeeds; it aborts exactly if there is no path to continue with |
| `GeneticPaths.GAPopulation.Evolve` | route_manage/route_algorithm/RouteAlgorithm.py:621-659 | The first population is the wanted paths, once each; every generation is bred from the one before by selection, crossing, cleaning, mutation and cleaning with the luck it has; it ends with a uniform selection or past the age limit; it aborts exactly for want of a first population or because a link of the last generation aborts with its draw |
| `GeneticPaths.MutatedPrefix` | route_manage/route_algorithm/RouteAlgorithm.py:530-564 | The prefix up to the mutated vertex is a walk |
| `GeneticPaths.ContinuedSplice` | route_manage/route_algorithm/RouteAlgorithm.py:590-619 | Prefix plus found path is a walk with no vertex more than twice |
| `GeneticPaths.FindMostSimilar` | route_manage/route_algorithm/RouteAlgorithm.py:596-606 | The first of the paths that the link misses for longest; none is ever missed altogether |
| `ShortestPaths.Settle` | route_manage/route_algorithm/RouteAlgorithm.py:857-898 | The array loop computes the labels of the round-by-round reference |
| `ShortestPaths.RoundInvariant` | route_manage/route_algorithm/RouteAlgorithm.py:873-891 | One round keeps: settled vertices are final, labels are trails, arcs from settled vertices are relaxed |
| `ShortestPaths.FinalSolved` | route_manage/route_algorithm/RouteAlgorithm.py:857-898 | After the last round the labels solve the shortest-path equations and predecessors have decreasing rank |
| `ShortestPaths.NoCheaperTrail` | route_manage/route_algorithm/RouteAlgorithm.py:857-898 | No trail to a vertex is cheaper than its label |
| `ShortestPaths.ChainTrail` | route_manage/route_algorithm/RouteAlgorithm.py:892-898 | The chain of predecessors is a trail that costs exactly the label |
| `ShortestPaths.WalkBack` | route_manage/route_algorithm/RouteAlgorithm.py:892-898 | The walk over the predecessors always ends and gives the chain |
| `Dijkstra.Calculate` | route_manage/route_algorithm/RouteAlgorithm.py:857-898 | Every vertex nearer than 10000 gets a loop-free path that is cheapest over all walks; every other one gets just itself |
| `Dijkstra.GetLink` | route_manage/route_algorithm/RouteAlgorithm.py:716-748 | None exactly for the source and for what is too far; otherwise a cheapest path in datapath ids, with the sum of the costs of its edges |
| `Dijkstra.MeasuredWeight` | route_manage/route_algorithm/RouteAlgorithm.py:900-916 | Real measurements give weights that are not negative |
| `Dijkstra.PathCostMeaning` | route_manage/route_algorithm/RouteAlgorithm.py:900-916 | What is minimised is the weighted sum of the path's total delay, total cost and total load, taken from the first edge between each two vertices |
| `Dijkstra.OneCriterion` | route_manage/route_algorithm/RouteAlgorithm.py:900-916 | With one coefficient 1 and the others 0 it is the total delay, cost or load |
| `Dijkstra.LinkCostMeaning` | route_manage/route_algorithm/RouteAlgorithm.py:735-748 | The cost returned is the total cost of the path's edges, whatever the coefficients |
| `Dijkstra.ChainAnswers` | route_manage/route_algorithm/RouteAlgorithm.py:857-898 | A chain of final predecessors is the cheapest path or the lone vertex |
| `MulticastTree.Construct` | route_manage/route_algorithm/MulticastRouteAlgorithm.py:281-312 | The subgraph of the selected edges, those without enough bandwidth at infinite cost |
| `MulticastTree.DeleteCircuit` | route_manage/route_algorithm/MulticastRouteAlgorithm.py:371-444 | The chain to every destination, or nothing if one of them cannot be reached |
| `MulticastTree.FitnessEvaluate` | route_manage/route_algorithm/MulticastRouteAlgorithm.py:281-354 | The stored fitness is the cost of the distinct edges of the tree the chromosome selects, or the sentinel if it selects none |
| `MulticastTree.SentinelExactly` | route_manage/route_algorithm/MulticastRouteAlgorithm.py:281-354 | The sentinel is stored exactly when `delete_circuit` returns nothing, if and only if the tree's distinct edges do not cost the sentinel and, without destinations, no edge at the source is selected |
| `MulticastTree.SentinelSafe` | route_manage/route_algorithm/MulticastRouteAlgorithm.py:281-354 | With a destination and a network whose edges cost less than the sentinel together, it is stored exactly when there is no tree, for every chromosome |
| `MulticastTree.TreeAtSentinel` | route_manage/route_algorithm/MulticastRouteAlgorithm.py:343-354 | Two edges that cost the sentinel together: the tree is returned and the sentinel is stored |
| `MulticastTree.NoDestinations` | route_manage/route_algorithm/MulticastRouteAlgorithm.py:343-354 | Without destinations `delete_circuit` returns nothing, but zero is stored once an edge at the source is selected |
| `MulticastTree.FitnessUnique` | route_manage/route_algorithm/MulticastRouteAlgorithm.py:281-354 | A chromosome has only one fitness |
| `MulticastTree.TreeMeaning` | route_manage/route_algorithm/MulticastRouteAlgorithm.py:371-444 | Every path of the tree is cheapest within the selected, bandwidth-feasible subgraph |
| `MulticastTree.HasTreeMeaning` | route_manage/route_algorithm/MulticastRouteAlgorithm.py:371-444 | There is a tree exactly if every destination is within reach; without destinations, if an edge at the source is selected |
| `MulticastTree.PathsFormTree` | route_manage/route_algorithm/MulticastRouteAlgorithm.py:371-444 | Wherever two paths meet, they have come the same way |
| `MulticastTree.TreeUnique` | route_manage/route_algorithm/MulticastRouteAlgorithm.py:371-444 | The tree is determined by the chromosome |
| `MulticastTree.FindEdge` | route_manage/route_algorithm/MulticastRouteAlgorithm.py:136-141 | The edge between two neighbours, and -1 exactly for a pair without one |
| `MulticastTree.PayBranch` | route_manage/route_algorithm/MulticastRouteAlgorithm.py:343-354 | Walking back from a destination pays for each edge not met before, once |
| `GeneCrossing.Shuffle` | route_manage/route_algorithm/MulticastRouteAlgorithm.py:226-231 | Whatever is drawn, every number has exactly one place, and from two numbers on none its own |
| `GeneCrossing.SortCuts` | route_manage/route_algorithm/MulticastRouteAlgorithm.py:236-243 | The cuts come out sorted and are the ones drawn |
| `GeneCrossing.OneSegment` | route_manage/route_algorithm/MulticastRouteAlgorithm.py:248-260 | The segments between sorted cuts cover every locus exactly once |
| `GeneCrossing.SwapSegments` | route_manage/route_algorithm/MulticastRouteAlgorithm.py:248-260 | Exactly the loci in selected segments are swapped |
| `GeneCrossing.CrossedSameGenes` | route_manage/route_algorithm/MulticastRouteAlgorithm.py:248-260 | The pair keeps its genes at every locus |
| `GeneCrossing.DrawCuts` | route_manage/route_algorithm/MulticastRouteAlgorithm.py:236-237 | Five cuts as drawn, behind the fixed 0 |
| `GeneCrossing.DrawSegments` | route_manage/route_algorithm/MulticastRouteAlgorithm.py:244-247 | The segments drawn for this pair join those drawn for earlier pairs |
| `GeneCrossing.WithDrawnMeaning` | route_manage/route_algorithm/MulticastRouteAlgorithm.py:244-247 | Selected is exactly what was selected before or is drawn now, each once |
| `GeneCrossing.ExchangedSameGenes` | route_manage/route_algorithm/MulticastRouteAlgorithm.py:232-260 | Crossed or not, a pair keeps its genes at every locus |
| `MulticastGenetics.MGAlgorithm.Crossover` | route_manage/route_algorithm/MulticastRouteAlgorithm.py:222-271 | The shuffled chromosomes are paired; every pair exchanges genes as its luck says, in the segments drawn up to then; the outstanding chromosome stays and its partner becomes its copy |
| `MulticastGenetics.MGAlgorithm.Cross` | route_manage/route_algorithm/MulticastRouteAlgorithm.py:233-260 | The two chromosomes exchange exactly the loci in selected segments between the drawn cuts |
| `MulticastGenetics.MatingNext` | route_manage/route_algorithm/MulticastRouteAlgorithm.py:232-271 | Mating one pair leaves the pairs done before and those to come as they are |
| `MulticastGenetics.PartnerFollows` | route_manage/route_algorithm/MulticastRouteAlgorithm.py:261-271 | The outstanding chromosome has exactly one place in the order, and its partner there has become its copy |
| `MulticastGenetics.MGAlgorithm.Variation` | route_manage/route_algorithm/MulticastRouteAlgorithm.py:273-279 | Exactly the drawn genes are flipped, none of the outstanding chromosome and its copy |
| `MulticastGenetics.MGAlgorithm.Selection` | route_manage/route_algorithm/MulticastRouteAlgorithm.py:356-369 | Every new chromosome is a copy of the first fittest of its candidates |
| `MulticastGenetics.MGAlgorithm.EvaluatePopulation` | route_manage/route_algorithm/MulticastRouteAlgorithm.py:210-220 | The first chromosome of least fitness below infinity, or the first one of all |
| `MulticastGenetics.MGAlgorithm.Generation` | route_manage/route_algorithm/MulticastRouteAlgorithm.py:446-454 | The population at every stage of a generation for the luck it has; before the selection the outstanding chromosome is still there and every fitness is right |
| `MulticastGenetics.MGAlgorithm.GeneticAlgorithm` | route_manage/route_algorithm/MulticastRouteAlgorithm.py:446-454 | Every generation starts from what the one before chose, keeps its first best, and is bred and chosen as its luck says; every stored fitness is that of the tree the genes select; the best fitness before a selection is never worse than after the selection before it |
| `MulticastGenetics.NeverWorse` | route_manage/route_algorithm/MulticastRouteAlgorithm.py:446-454 | Keeping the best chromosome keeps the least fitness |
| `MulticastGenetics.Regressions` | route_manage/route_algorithm/MulticastRouteAlgorithm.py:446-454 | The same over all generations |
| `FlowTables.Network.FlowMod` | route_manage/route_task.py:156-180 | A flow-mod replaces the entry of its slot and no other, and is noted |
| `UnicastRoutes.RouteTask.DeployFlowTable` | route_manage/route_task.py:207-265 | On a path of any length every switch gets its two entries, and entries for other addresses are untouched |
| `UnicastRoutes.RoutedDelivers` | route_manage/route_task.py:207-265 | A source packet crosses exactly the path and leaves at the destination port; the reply retraces it to the source port |
| `UnicastRoutes.Relay` | route_manage/route_task.py:207-265 | From any switch of the path the packet takes the rest of it |
| `NatRoutes.DeployFlowTable` | route_manage/route_task.py:305-388 | Nothing below two switches; otherwise exactly the planned flow-mods in their order, from the server's end; on clean switches the outcome is transparent exactly under the stated condition, and safe after every prefix |
| `NatRoutes.InstallSwitch` | route_manage/route_task.py:318-369 | One switch gets its entry towards the server, then the one for the replies |
| `NatRoutes.TransparentExactly` | route_manage/route_task.py:305-450 | User packets to the gateway reach the server readdressed, and replies reach the user as from port 80 of the gateway, exactly under the stated condition on the path |
| `NatRoutes.Conversation` | route_manage/route_task.py:390-450 | What the user gets answers what he sent exactly if he sent it to port 80 |
| `NatRoutes.DeploymentMeaning` | route_manage/route_task.py:305-388 | The same for the planned tables and every prefix of the plan |
| `NatRoutes.PlanSafe` | route_manage/route_task.py:305-388 | After every prefix of the flow-mods, no forward entry sends to a path switch that lacks its own |
| `NatRoutes.UserReachesServer` | route_manage/route_task.py:391-419 | The user's packet arrives at the server, readdressed to it |
| `NatRoutes.ServerReachesUser` | route_manage/route_task.py:421-450 | The reply arrives at the user with the gateway's address |
| `NatRoutes.UserDropped` | route_manage/route_task.py:311-362 | Without an access entry at the user's switch its packets are not delivered |
| `NatRoutes.SamePortNumber` | route_manage/route_task.py:322-331 | A failing input: the server's switch has a user on a port with the number of the user's port |
| `MulticastFormat.FormatLinkList` | route_manage/route_task.py:564-622 | Every switch of the tree once, with its unique parent and exact children, parents before children |
| `MulticastFormat.OneMore` | route_manage/route_task.py:583-622 | One visit updates the record of one switch to describe one place more |
| `MulticastRoutes.DeployFlowTable` | route_manage/route_task.py:498-534 | Exactly one flow-mod per switch of the tree, the deepest first; every switch gets its entry, nothing else changes, and every prefix is safe |
| `MulticastRoutes.FormattedTree` | route_manage/route_task.py:564-622 | The records form a tree rooted at the source's switch |
| `MulticastRoutes.SuffixSafe` | route_manage/route_task.py:498-534 | After every prefix of the installs, no entry sends to a tree switch without one |
| `MulticastRoutes.PlanSafe` | route_manage/route_task.py:498-534 | The same for every prefix of the planned flow-mods |
| `MulticastRoutes.InstalledDeployed` | route_manage/route_task.py:498-534 | The tables that deployment leaves are those delivery needs |
| `MulticastDelivery.EveryRunDelivers` | route_manage/route_task.py:498-534 | In every order in which the switches act, there is at most one step per switch of the tree, and with nothing left in flight every member port has exactly one copy and no other host port has any |
| `MulticastDelivery.NeverStuck` | route_manage/route_task.py:498-534 | Any copy in flight can be acted on next |
| `MulticastDelivery.RunCompletes` | route_manage/route_task.py:498-534 | However a run has begun, it goes on until nothing is left in flight |
| `MulticastDelivery.StepSpread` | route_manage/route_task.py:498-534 | One switch's action keeps: copies are only where they are due, once each |
| `MulticastEndToEnd.GetLink` | route_manage/route_algorithm/MulticastRouteAlgorithm.py:62-70 | The tree's paths in datapath ids |
| `MulticastEndToEnd.TreeBranches` | route_manage/route_algorithm/MulticastRouteAlgorithm.py:371-444 | The renamed paths are branches from the source's switch to the destinations' switches |
| `MulticastEndToEnd.ChromosomeDelivers` | route_manage/route_task.py:498-622 | With the tree of a chromosome deployed, every member port of every destination switch gets each packet exactly once, no other host port gets any |
| `MulticastEndToEnd.TaskValid` | route_manage/route_task.py:498-622 | On a fitting site the tree's neighbours are cabled together and its ends have their members |
| `MulticastEndToEnd.DeployTree` | route_manage/route_task.py:498-534 | The whole way from chromosome to tables: succeeds exactly if there are destinations and all are within reach; then every packet arrives in every run, and every state on the way was safe |
| `Dominance.FrontsPartition` | route_manage/route_algorithm/NSGA2.py:164-202 | The fronts partition the population |
| `Dominance.FrontNumber` | route_manage/route_algorithm/NSGA2.py:164-202 | The number of the front is the length of the longest chain of ever better individuals |
| `Dominance.BetterMeaning` | route_manage/route_algorithm/MOEARouteAlgorithm.py:149-155 | Better is: no worse in delay and in loss, and not the same in both |
| `Dominance.StrictOrder` | route_manage/route_algorithm/MOEARouteAlgorithm.py:149-155 | Better is irreflexive, asymmetric and transitive |
| `Dominance.FirstFrontMeaning` | route_manage/route_algorithm/NSGA2.py:164-202 | The first front in delays and losses |
| `Dominance.BetterIsEarlier` | route_manage/route_algorithm/MOEARouteAlgorithm.py:149-155 | A dominating individual is always in an earlier front |
| `Dominance.SomebodyNondominated` | route_manage/route_algorithm/MOEARouteAlgorithm.py:149-155 | Among finitely many individuals somebody is not dominated |
| `NonDominatedSort.FastNondominateSort` | route_manage/route_algorithm/NSGA2.py:164-202 | For every list, with repeats or without: the counters give the fronts of repeated peeling exactly if nobody among the best is listed twice; what `pareto_rank` ends up as |
| `NonDominatedSort.FirstFront` | route_manage/route_algorithm/NSGA2.py:169-183 | Counters and lists after all comparisons, and the first front: the best, as often as they are listed |
| `NonDominatedSort.Release` | route_manage/route_algorithm/NSGA2.py:188-194 | Taking one individual away counts its list down, collects those that reach zero, once each, and keeps the counters right |
| `NonDominatedSort.FreedIsNext` | route_manage/route_algorithm/NSGA2.py:185-200 | Those freed by a front are the non-dominated ones of the remainder |
| `NonDominatedSort.SharedObjectsFail` | route_manage/route_algorithm/NSGA2.py:48-60 | In the first round both populations hold the same objects, and the fronts never come out right |
| `DominationCounts.LoadLess` | route_manage/route_algorithm/NSGA2.py:172-177 | One individual's list holds exactly what the counters of the others count for it |
| `DominationCounts.LoadZero` | route_manage/route_algorithm/NSGA2.py:190-194 | A counter is zero exactly if nobody better is left |
| `CrowdingSort.ObjectSort` | route_manage/route_algorithm/NSGA2.py:251-281 | The insertion sort that never leaves its inner loop early yields an ordered permutation, in place |
| `CrowdingSort.InsertStep` | route_manage/route_algorithm/NSGA2.py:255-262 | After the item has found its place no later comparison moves it |
| `CrowdingSort.CrowdFront` | route_manage/route_algorithm/NSGA2.py:206-247 | Distances are infinite for one or two, else the sum of the gaps in the two orders; the loneliest come first; it fails exactly for three or more without delay |
| `CrowdingSort.DelayGapMeaning` | route_manage/route_algorithm/NSGA2.py:216-227 | A delay gap is what the neighbours are apart, as a part of what the ends are apart |
| `CrowdingSort.LossGapMeaning` | route_manage/route_algorithm/NSGA2.py:230-245 | The same for losses, but in full if the least or the greatest loss is zero |
| `CrowdingSort.CrowdingDistanceSort` | route_manage/route_algorithm/NSGA2.py:205-247 | The same for all fronts |
| `NewPopulation.NSGA2.MakeNewPopulation` | route_manage/route_algorithm/NSGA2.py:52-69 | Exactly `population_size` distinct survivors, and nobody left out dominates one of them |
| `NewPopulation.NoDelayRound` | route_manage/route_algorithm/NSGA2.py:222-227 | A failing round: three individuals without delay |
| `NewPopulation.JoinedOrder` | route_manage/route_algorithm/NSGA2.py:63-65 | Front after front, nobody dominates somebody before it |
| `NewPopulation.FrontsUnique` | route_manage/route_algorithm/NSGA2.py:164-202 | A population has only one sequence of fronts |
| `Prefixes.ApplyMeaning` | ryu/app/rest_router.py:1860-1875 | The mask leaves the largest multiple of the network's size that is not above the address |
| `Prefixes.ContainsMeaning` | ryu/app/rest_router.py:1860-1875 | A network holds exactly the addresses from its own one on, as many as its size |
| `Prefixes.LastByte` | ryu/app/rest_router.py:1860-1875 | Netmask 24 clears the last byte |
| `Prefixes.ApplyTwice` | ryu/app/rest_router.py:1860-1875 | A shorter mask does not see what a longer one has cleared |
| `Prefixes.Nested` | ryu/app/rest_router.py:1860-1875 | Networks that share an address are nested |
| `AddressTables.ClashIsOverlap` | ryu/app/rest_router.py:1261-1269 | Testing the two gateways finds every overlap of the two networks, and nothing else |
| `AddressTables.AddressData.Add` | ryu/app/rest_router.py:1257-1281 | Accepted exactly if it overlaps no registered network; networks stay pairwise disjoint |
| `AddressTables.AddressData.Delete` | ryu/app/rest_router.py:1283-1287 | Forgets one network with that id, or nothing; networks stay disjoint |
| `AddressTables.AddressData.GetData` | ryu/app/rest_router.py:1292-1301 | The only network that holds the address, whatever the dictionary order |
| `AddressTables.AddressData.GetDataById` | ryu/app/rest_router.py:1292-1301 | The network with that id, and none exactly if there is none |
| `RouteTables.RoutingTable.Add` | ryu/app/rest_router.py:1320-1356 | Refused exactly for illegal destinations and literal duplicates; otherwise filed under the network it names; the next id, with the wrap at 32 bits |
| `RouteTables.RoutingTable.Delete` | ryu/app/rest_router.py:1358-1362 | The route with that id goes, no other |
| `RouteTables.RoutingTable.GetData` | ryu/app/rest_router.py:1367-1386 | Longest match, as in section 5.2.4.3 of RFC 1812, else the default, whatever the dictionary order |
| `RouteTables.LookupUnique` | ryu/app/rest_router.py:1367-1386 | There is only one answer |
| `VlanRouting.RouteCookieRoundTrip` | ryu/app/rest_router.py:621-644 | A route cookie gives back VLAN and id exactly for ids below 65536 |
| `VlanRouting.RouteCookieParts` | ryu/app/rest_router.py:621-644 | What a route cookie reads as for every id: the high half of the id is added to the VLAN |
| `VlanRouting.AddressCookieParts` | ryu/app/rest_router.py:621-644 | An address cookie gives back VLAN and id exactly for ids of 32 bits, and the id's high half as a route id |
| `VlanRouting.SharedCookie` | ryu/app/rest_router.py:621-644 | Address 65536 and route 1 have the same cookie |
| `VlanRouting.MirrorAgrees` | ryu/app/rest_router.py:167-191 | With one flow per route and one catch-all, the highest-priority match for any address is the route the table gives |
| `VlanRouting.OutsideOnlyRoutes` | ryu/app/rest_router.py:717-753 | Outside the router's networks no address flow competes with the route flows |
| `VlanRouting.AddressAhead` | ryu/app/rest_router.py:167-191 | The priorities of all flows; inside a network, local traffic and packets to the router come before every route flow, and learning hardware addresses only before the default route's and the drop flow |
| `VlanRouting.AddMirror` | ryu/app/rest_router.py:755-792 | Adding a route keeps table and switch in step unless it usurps a default route, and then it does not |
| `VlanDeletion.RemainingMirror` | ryu/app/rest_router.py:870-917 | Without the selected routes whose id is below 65536, and without the flows whose cookie is listed, table and switch are in step, whatever the ids |
| `VlanDeletion.RouteListed` | ryu/app/rest_router.py:880-893 | A route's flow is listed exactly if the route is selected and its id is below 65536 |
| `VlanDeletion.StrippedListed` | ryu/app/rest_router.py:895-910 | Deleting the listed flows by cookie deletes no others |
| `VlanDeletion.AddressesSpared` | ryu/app/rest_router.py:880-893 | An address flow stays exactly if the high half of its id is not selected; when all routes go, if its id is below 65536 |
| `VlanDeletion.NeverDeleted` | ryu/app/rest_router.py:870-917 | Route 65536 stays in table and switch, whatever is asked for |
| `VlanDeletion.AddressLostWithRoute` | ryu/app/rest_router.py:870-917 | Deleting route 1 takes the flows of address 65536 along |
| `VlanDeletion.OwnFlowListed` | ryu/app/rest_router.py:818-837 | An address flow goes exactly if its address is asked for and not skipped; asking for all leaves ids of more than 16 bits out |
| `VlanDeletion.AddressDeletionMirror` | ryu/app/rest_router.py:806-868 | Deleting addresses keeps table and switch in step if and only if the id asked for is not read off a route's cookie or the drop flow's |
| `VlanRouters.VlanRouter.constructor` | ryu/app/rest_router.py:591-607 | A new router has no routes and one drop flow |
| `VlanRouters.VlanRouter.AlwaysAgrees` | ryu/app/rest_router.py:1367-1386 | After any sequence of setting and deleting routes and addresses and of gateway ARP packets, each within the condition its method states, table and route flows agree about every address, and outside the router's networks the flow is ahead of all flows, address flows too |
| `VlanRouters.VlanRouter.SetRoutingData` | ryu/app/rest_router.py:755-792 | Accepted exactly if the gateway is a neighbour, the destination is legal and not a literal duplicate; the new table and flows; at every id the two stay in step exactly if the route is no usurper |
| `VlanRouters.VlanRouter.DeleteRoutingData` | ryu/app/rest_router.py:870-917 | The selected routes with ids below 65536 go and no others, the flows that read as selected go and no others, whatever order the switch lists its flows in; the ids reported; the two stay in step |
| `VlanRouters.VlanRouter.UpdateRoutingTable` | ryu/app/rest_router.py:1159-1186 | Every route through the gateway learns its hardware address and forwards to the port it came from; the two stay in step |
| `VlanRouters.VlanRouter.SetAddressData` | ryu/app/rest_router.py:717-753 | Accepted exactly if it overlaps no network; registers the address and sets its three flows; table and switch stay in step, whatever the id |
| `VlanRouters.VlanRouter.ChkAddrRelationRoute` | ryu/app/rest_router.py:919-933 | Of the addresses asked for, exactly those with a route's gateway in their network are skipped |
| `VlanRouters.VlanRouter.DeleteAddressData` | ryu/app/rest_router.py:806-868 | The flows that read as selected and not skipped go, and the addresses they name, whatever order the switch lists its flows in; table and switch stay in step if and only if the id is not read off a route's flow or the drop flow |
| `VlanRouters.GatewaysStayKnown` | ryu/app/rest_router.py:919-933 | Skipping keeps every gateway in one of the router's networks |
| `VlanRouters.RouteLostWithAddress` | ryu/app/rest_router.py:806-868 | Deleting address 65536 makes table and switch disagree about every address that route 1 is the longest match for |
| `VlanRouters.DropLostWithAddress` | ryu/app/rest_router.py:806-868 | Deleting address 0 without a default route removes the drop flow, and it does not come back |
| `VlanRouters.StaleDefault` | ryu/app/rest_router.py:1335-1348 | A concrete run after which the switch serves a route the table has lost |
| `ArpHandler.ProxyArp.FloodingStrategy` | topology_manage/ProxyArp.py:203-234 | An entry expires exactly after ten seconds; until then another port is blocked, and the first one floods while there were fewer than five floods; no entry floods more than five times before it expires |
| `ArpHandler.StrategyMeaning` | topology_manage/ProxyArp.py:210-229 | The four verdicts, by clock, port and number of floods |
| `ArpHandler.FloodedAgain` | topology_manage/ProxyArp.py:210-234 | After a late copy the next one is flooded again, whatever port it comes in by |
| `ArpFlooding.TimedRunInTime` | topology_manage/ProxyArp.py:203-234 | When all copies of a broadcast are handled within ten seconds, nothing expires |
| `ArpFlooding.EveryScheduleEnds` | topology_manage/ProxyArp.py:203-234 | No schedule of one broadcast's copies has more deliveries than there are ports |
| `ArpFlooding.BroadcastSpreads` | topology_manage/ProxyArp.py:203-234 | When it has ended, every switch has flooded exactly once, every host has one copy, and the first in-ports are a spanning tree |
| `ArpFlooding.StepInv` | topology_manage/ProxyArp.py:203-234 | One delivery keeps: every copy sent is on its way once or handled, and switches with an entry have flooded once |
| `ArpFlooding.NeverStuck` | topology_manage/ProxyArp.py:203-234 | As long as a copy is on its way, something can happen |
| `ArpFlooding.TreeClimbs` | topology_manage/ProxyArp.py:230-234 | By the first in-ports every visited switch climbs to the ingress |
| `IgmpState.WithoutMemberMeaning` | multicast/igmplib.py:527-531 | A member goes, and nothing empty is left |
| `IgmpState.KeptMeaning` | multicast/igmplib.py:396-414 | Exactly the members that replied survive, and nothing empty is left |
| `IgmpState.Alternating` | multicast/igmplib.py:417-418 | If the replay does not break, a group's comings and goings alternate, and it is live after a coming |
| `IgmpMembers.RepliedMeaning` | multicast/igmplib.py:376-404 | The reply flag says whether the member sent a report since the last reset |
| `IgmpMembers.LeaveMeaning` | multicast/igmplib.py:480-492 | The leave flag says whether the member sent a leave since it was entered |
| `IgmpMembers.ReportDoesNotSave` | multicast/igmplib.py:480-534 | Report, leave, report, timer: the member is gone |
| `Igmp.ListedRegistered` | multicast/igmplib.py:415-416 | Every switch listed for a group has it registered, so the deletes never miss |
| `Igmp.FlagsMean` | multicast/igmplib.py:371-534 | In every reachable table the flags mean what the histories say |
| `Igmp.IgmpVirtualQuerier.DoReport` | multicast/igmplib.py:429-482 | The sender is a member that has replied; a leave it sent before stays; all invariants hold |
| `Igmp.IgmpVirtualQuerier.DoLeave` | multicast/igmplib.py:484-513 | The member is marked; a leave of an unknown member has no effect |
| `Igmp.IgmpVirtualQuerier.LeaveTimeout` | multicast/igmplib.py:518-534 | A member that sent a leave since it was entered goes, with its group if it was the last; otherwise no effect; exactly which events are sent |
| `Igmp.IgmpVirtualQuerier.ResetReplies` | multicast/igmplib.py:376-380 | Nobody has replied any more, nothing else changes |
| `Igmp.IgmpVirtualQuerier.Expire` | multicast/igmplib.py:396-418 | The survivors are exactly the members present that sent a report since the round's reset; registrations go exactly with the groups that go; one removal event per group that goes, after all earlier events |
| `Igmp.IgmpVirtualQuerier.PacketIn` | multicast/igmplib.py:319-347 | Only switches in querier mode handle IGMP; tables, registrations, history and events after a report and after a leave |

## Left out

- `GeneticPaths.GAPopulation.Evolve`: the fitness of a path is any number, so `fitness_evaluate` and the module-level `find_edge` play no part; the result holds whatever they return. How the population is shuffled is arbitrary.
- `UnicastRoutes.RoutedDelivers`: wants no address-translation entry for the same two addresses on the path, since both kinds of entry have the same priority.
- `NatRoutes.TransparentExactly`: wants no entries for the same addresses left over on the path's switches.
- `MulticastTree.FitnessEvaluate`: wants at most one edge per pair of switches, as the link table keeps it, and costs that are not negative.
- `MulticastFormat.FormatLinkList`: branches have at least two switches, since on a branch of one the original indexes past its end, and come the same way wherever they meet, as the branches of a tree do; what the records say of other branches is not modelled.
- `MulticastEndToEnd.ChromosomeDelivers`: multicast delivery is tied to `MGAlgorithm`; the paths of the NSGA-II variant need not form a tree.
- `NewPopulation.NSGA2.MakeNewPopulation`: individuals are distinct and there are at least `population_size` of them; for the first round, in which they are not, only the failure of the sort is proved.
- `MulticastGenetics.MGAlgorithm.GeneticAlgorithm`: the filling of the first population is not modelled; any population with enough chromosomes of the right length will do.
- `RouteTables.RoutingTable.Add`: destinations come parsed, with a flag that says whether the text is literally the parsed address and number; text parsing itself is not modelled.
- `VlanRouters.VlanRouter.DeleteRoutingData`: deletion by cookie is that of OpenFlow 1.2 and later; flows that the switch's `Router` sets for itself with cookie 0 are not part of the model, and address flows sit in slots of their own.
- `ArpFlooding.BroadcastSpreads`: every copy is handled no more than ten seconds after the first one at the same switch; a later one makes the entry expire, and what the floods that follow (`ArpHandler.FloodedAgain`) lead to is not modelled.
- `VlanRouting.MirrorAgrees`: for addresses inside the router's own networks only route flows are compared with each other.
- `Igmp.IgmpVirtualQuerier.LeaveTimeout`: the timer may fire at any time, which includes every time the original lets it fire; flow entries for group members are not modelled.
- `VlanRouters.VlanRouter.SetRoutingData`: ids are given out again after 2^32 - 1 additions, of routes or of addresses; the whole invariant is kept up to there, and what two routes with one id lead to is not modelled.
- `VlanRouters.VlanRouter.DeleteAddressData`: one VLAN at a time; that a route with an id above 65535 has a cookie of another VLAN and can be deleted from there is not modelled.
- Suspended packets, ARP replies and ICMP handling of the router: they do not touch the route tables.
- Topology discovery, host tracking, link monitoring, fault classification, load balancing and the web interface: counters, polling and glue around the parts modelled.
- The breeding step between two rounds of NSGA-II and its choice of a final path: they draw at random and promise nothing.
- `RouteInfoMaintainer`: its index disagrees with the plain scan and its updates are switched off.
- Everything that calls networkx, which is not shown.
- Message construction, packet serialisation, durations and thread scheduling: only the order of steps is kept.
