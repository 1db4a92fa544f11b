# Parallax: a verified model of its scheduler and its caches

Parallax serves a language model over a swarm of nodes. A scheduler splits the decoder layers
among the nodes, keeps track of which nodes serve, and routes requests over them; each node
keeps key-value caches for the requests it runs. This project models the algorithms and the
state machines of those two parts in Dafny and proves what they are for.

`dafny verify dfyconfig.toml` checks everything.

## The parts

**Splitting layers over nodes** (`src/scheduling/layer_allocation.py`).
`PipelinePlans` states what the dynamic-programming allocator optimises, without its states,
pruning or sorting: every node idles, begins a pipeline or joins an open one. `PipelineDp` is
the recurrence over sorted residuals, `PipelineExactness` proves it exact against the plans,
`PipelineSearch` is the memoised search that records actions, `PipelineReplay` the separate
backtracking, and `PipelineAllocation` the choice of the number of pipelines. `WaterFilling` and
`PipelineFilling` are the bisection, the rounding and the in-place assignment of one pipeline, and
`BuiltPipelines` is what that filler makes of the pipelines the dynamic program builds.
`GreedyPipelines` is the greedy builder with the greedy filler; `TurningPoints` is the
layer-level route and the trimming that follows it, and `StayingRoutes` says when that route does
not come back to a node. `Workers` are the nodes as the allocator changes them.

**Routing and the node registry** (`request_routing.py`, `node_management.py`, `scheduler.py`).
`ShardRouting` finds a minimum-latency cover. `PipelineDiscovery` enumerates all pipelines by
depth-first search, and `PipelineCounts` counts them in one pass. `FixedPipelines` selects
node-disjoint ones. `Lifecycle` states the registry as a value, what each step does to it and
what every step keeps; `NodeManagement` is the registry with its methods,
`NodeTiming` what its nodes' routes take in milliseconds, `RoundRobin` the
router over fixed pipelines, `Dispatching` the law of its turns, `Placements` what one run of the
allocator does to the registry, and `Scheduling` the event handlers as steps.

**Caches** (`src/parallax/server`). `RadixTree` and `RadixCache` are the compressed trie with
node splitting, lock counts and eviction. `BlockTrie` states when linked nodes form a trie of
whole blocks and what linking and unlinking do to it; `BlockCache` is the block cache over it,
with the locks of live requests. `PagedCache` is block allocation with slot mappings.

**Tool calls** (`tokenizer_utils.py`). `ToolCalls` is the streaming extraction; `ToolReplies` says what a
reply is made of and that extraction takes it apart again.

`Hosts`, `Options`, `Sequences`, `Totals`, `SortedLists` and `Arithmetic` hold what several parts share.

## Conventions

- Latencies, round-trip times and compute powers are reals, latencies with an explicit infinity. Routes
  are compared by cost inside an algorithm; what a cost is in milliseconds is stated from the nodes' own
  fields (`CostIsTime`, `LayerCostIsTime`, `PathCost`).
- A node's decoder-layer capacity is given by integers: plain, with the embedding, with the LM
  head, with both; reserving room never adds capacity (`src/scheduling/node.py:271-304`).
- A raised exception is an outcome value. Where a result says that nothing raises, the outcome
  is still computed by the branches of the code and proved not to occur.
- Each event handler is one step. What the allocator does inside a step is a free parameter
  (`Allotment`): any placements, after which it may raise. The handlers' results hold for every such
  run and say what it leaves behind. A placement that is refused, of a node that is not waiting or
  outside the model, ends the run; what the attempt wrote to the node first stays written. Trimming
  on turning points, off by default, gives active nodes other layers and is not such a run.
- A pipeline of node ids is a sequence of indices where only the list of active nodes matters,
  and of ids where the registry does; `RoundRobin` connects the two.

## Where the code and its documentation differ

- `find_optimal_path` of the shard router documents `([], inf)` when there is no cover; with no
  active nodes, or no layers, the code reports latency 0.0, and so does the model.
- A pipeline of one node counts as full when the node has room for all layers and the embedding;
  the LM head it also hosts is not charged (`FullReaches`, `LoneNodeShort`).
- The dynamic program charges embedding and LM head to the stages in the order it built them, the
  filler after sorting them again. The filler can therefore refuse a pipeline it is given: over
  sorted capacities that fall short (`BuiltButRefused`) or over a stage without room at its new
  position, as `AdjustPipelineLayers` says exactly. Of the stages built largest first it refuses only
  those whose head has no room beside the embedding (`DescendingPasses`, `HeadWithoutRoom`). A
  bootstrap or a rebalance passes such an exception on; it raises no other (`Bootstrap`,
  `ProcessLeaves`).
- The comment on water-filling promises that the remaining layers are never negative. That holds
  exactly when the floors at the bisected level do not exceed the layers; `UnevenPowersRaise`
  gives workers that break it for every number of bisection steps.
- Bootstrapping succeeds without any pipeline when no chain of the active nodes has finite latency
  (`Bootstrap`, `OverloadedUnrouted`, `UnmeasuredUnregistered`).
- Trimming on turning points drops layers the route still needs when the route returns to a
  node it left (`BestRouteMayReturn`); `TrimmedRouteHosted` says exactly when it does not, and
  `StickyRouteHosted` gives latencies and round-trip times for which it never does.
- Extending the registered pipelines is best effort; `ExpandPipelines` says from the placements
  exactly when the registry stays sound. Two new pipelines cut at the same layer already break it
  (`SharedCutOverlaps`, `TwoPipelinesOverlap`).
- Inserting a block over another one with the same first token cuts that one's subtree off: its
  blocks stay counted and are never handed back (`InsertBlock`, `CountIsReachable`).
- A tool-call marker cut by a chunk boundary is not recognised (`CutMarkerMissed`), though that need
  not show (`CutMayNotShow`).

## Model

| member | source | states |
|---|---|---|
| PipelineExactness.PlanBounds | src/scheduling/layer_allocation.py:848-930 | Every labelled plan that closes the wanted pipelines is matched by a run of sorted states none of which is pruned, using as many nodes: pruning and canonical sorting lose nothing |
| PipelineExactness.PlanExists | src/scheduling/layer_allocation.py:848-930 | Every finite cost is the number of nodes used by some labelled plan |
| PipelineExactness.SolveIsExact | src/scheduling/layer_allocation.py:848-932 | For a target of k pipelines the recurrence is finite exactly when some labelled plan closes k pipelines, and is then the least number of nodes over all such plans |
| PipelineExactness.FeasibleIsBounded | src/scheduling/layer_allocation.py:840 | No number of pipelines above min(nodes, capacity // layers) is feasible, so the tried range misses none |
| PipelineDp.SolveRealised | src/scheduling/layer_allocation.py:929 | The recorded action is one of the options of its state and leads to a state whose cost accounts for the recorded cost |
| PipelineDp.CandidateBound | src/scheduling/layer_allocation.py:874-928 | The recorded cost is at most the cost of every option of an unpruned state |
| PipelineSearch.SuffixSums | src/scheduling/layer_allocation.py:836-838 | Entry i is the plain capacity of the nodes from i on |
| PipelineSearch.Search.Dp | src/scheduling/layer_allocation.py:847-930 | The memoised search that fills the action table returns the value of the recurrence, and keeps the memo and the table consistent with it |
| PipelineReplay.Backtrack | src/scheduling/layer_allocation.py:965-1015 | Replaying a recorded table never misses an entry; it yields exactly k full, non-empty, pairwise disjoint pipelines whose stages total the optimum |
| PipelineReplay.SortIsStable | src/scheduling/layer_allocation.py:986-987 | The open pipelines are sorted by residual, and those of equal residual keep their order |
| PipelineAllocation.FullReaches | src/scheduling/layer_allocation.py:984-1005 | By position-adjusted capacity (embedding at the head, LM head at the tail, both on a lone node), a pipeline built as full can host all layers exactly when it has two stages or more, or its lone node has room for both |
| PipelineAllocation.FullByRooms | src/scheduling/layer_allocation.py:874-928 | A pipeline is full exactly when the rooms of its stages add up to all layers and do not without the last: room beside the embedding at the head, plain room where layers stay missing, room beside the LM head where plain room would close it |
| PipelineAllocation.LoneNodeShort | src/scheduling/layer_allocation.py:909-920 | An input where the allocator builds, as the best it can, a one-node pipeline with no room for the LM head |
| PipelineAllocation.FoundLeast | src/scheduling/layer_allocation.py:932-937 | The search for one target finds the least total, and finds one whenever there is one |
| PipelineAllocation.Allocate | src/scheduling/layer_allocation.py:804-948 | The chosen k maximises k*k/s*(k) over every feasible k, also those never tried, compared by cross-multiplication, and is the smallest that does; its pipelines realise s*(k); nothing is returned exactly when no k is feasible |
| WaterFilling.TotalSlope | src/scheduling/layer_allocation.py:339-340 | The water-filled total is monotone in the level and grows by at most the total power times the difference |
| WaterFilling.Bisect | src/scheduling/layer_allocation.py:342-349 | Bisection returns the first point of the 2^K grid whose total reaches the layers |
| WaterFilling.LessThanOneOver | src/scheduling/layer_allocation.py:342-349 | When the grid is fine enough for the powers the level overshoots by less than one layer |
| WaterFilling.RankedFacts | src/scheduling/layer_allocation.py:358-359 | The ranking lists every node once, by decreasing remainder with the lower index first on ties, and its total is the total remainder |
| WaterFilling.GiveRemainders | src/scheduling/layer_allocation.py:357-366 | The left-over layers go one each to the largest remainders, the lower index first on ties, until the counts sum to all layers; a node with a remainder always has room |
| WaterFilling.Clamp | src/scheduling/layer_allocation.py:370-384 | The final clamp makes counts fit, hands what does not fit to the first nodes with room, and keeps the sum as far as the capacities allow; it moves nothing when they already fit |
| WaterFilling.Integerize | src/scheduling/layer_allocation.py:351-384 | Integer counts exist exactly when the floors do not exceed the layers; they sum to all layers, each is the floor or ceiling of its share within its cap, and those rounded up are the ones with the largest fractional parts |
| PipelineFilling.FloorsFit | src/scheduling/layer_allocation.py:353-368 | With less than one layer of overshoot the floors never exceed the layers |
| PipelineFilling.FirstReachingUnique | src/scheduling/layer_allocation.py:342-349 | The level the bisection settles on is determined by the inputs |
| PipelineFilling.SplitLayers | src/scheduling/layer_allocation.py:338-384 | The negative-remaining error happens exactly when the floors at the bisected level exceed the layers, and never when sum(F)*max(c/F) <= 2^K |
| PipelineFilling.UnevenPowersRaise | src/scheduling/layer_allocation.py:367-368 | For every number of bisection steps, three workers that pass the capacity checks and whose powers make the adjustment raise over a negative rest: the premise on the powers cannot be dropped |
| PipelineFilling.Apply | src/scheduling/layer_allocation.py:386-395 | The ranges written are consecutive, of the given sizes, and the last written layer is their sum |
| PipelineFilling.HostedOnce | src/scheduling/layer_allocation.py:386-395 | Consecutive ranges of given sizes host every layer at exactly one worker |
| BuiltPipelines.DescendingPasses | src/scheduling/layer_allocation.py:306-334 | A pipeline the dynamic program builds with its nodes in descending order of plain capacity keeps that order in the filler and its capacities reach all layers; it is refused there exactly when its head is followed by others and has no room beside the embedding |
| BuiltPipelines.HeadWithoutRoom | src/scheduling/layer_allocation.py:316-323 | Capacities and a number of layers where the only pipeline the dynamic program can build, largest first and large enough in all, is refused over a head of capacity zero |
| BuiltPipelines.BuiltButRefused | src/scheduling/layer_allocation.py:945-950 | Capacities and a number of layers where the only pipeline the dynamic program can build is refused by the filler: sorted again, its capacities fall short |
| PipelineFilling.AdjustPipelineLayers | src/scheduling/layer_allocation.py:278-400 | Each error has its exact condition on the sorted capacities and powers; otherwise every worker holds its consecutive share of a rounded water-filled split; the coverage check never fails |
| Workers.ByCapacityOrders | src/scheduling/layer_allocation.py:309 | The stages are put in decreasing order of plain capacity, and none is lost or repeated |
| Workers.Worker.Deallocate | src/scheduling/layer_allocation.py:169-185 | A worker with layers loses them and goes to standby, one without is left alone; raises exactly for one that has layers but is not ACTIVE |
| GreedyPipelines.BestFit | src/scheduling/layer_allocation.py:693-705 | The look-ahead picks the last node that could close the pipeline alone and leave enough capacity for another |
| GreedyPipelines.BuildPipeline | src/scheduling/layer_allocation.py:678-733 | The builder takes workers in line (the look-ahead head, then the others in order) and stops at the first that closes; it closes exactly when, charging the embedding to the head and the LM head to a node that would close, nothing is missing, and otherwise uses up the line |
| GreedyPipelines.ClosedByRooms | src/scheduling/layer_allocation.py:715-727 | The builder closes a pipeline exactly when the rooms of its nodes add up to all layers and do not without the last: room beside the embedding at the head, plain room after it, and room also beside the LM head where a node would close |
| GreedyPipelines.HeadOfLine | src/scheduling/layer_allocation.py:688-713 | Looking ahead, when the total capacity exceeds two pipelines, the line begins with the last node that has room for all layers beside the LM head and leaves as many over; otherwise with the first |
| GreedyPipelines.TooSmall | src/scheduling/layer_allocation.py:671-681 | Nodes whose total plain capacity falls short of the layers close no pipeline, so stopping there misses none |
| GreedyPipelines.FillerFollows | src/scheduling/layer_allocation.py:418-459 | Node by node the filler has left exactly what the builder still misses |
| GreedyPipelines.ClosedIsFilled | src/scheduling/layer_allocation.py:418-459 | A pipeline the builder closes is filled: every member gets at least one layer, all layers are given, and each share is within the capacity of its position |
| GreedyPipelines.AdjustPipelineLayersGreedy | src/scheduling/layer_allocation.py:402-459 | The filler assigns the shares of the specification as consecutive ranges, and raises exactly when layers are left |
| GreedyPipelines.AllocateFromStandby | src/scheduling/layer_allocation.py:645-743 | Pipelines are built turn by turn from what earlier turns left, until no further one can be closed; no filling raises; every pipeline tiles all layers within its capacities; pipelines share no worker and the others stay idle |
| TurningPoints.Relax | src/scheduling/layer_allocation.py:494-515 | Each entry of a row is the cheapest way in from the row before, with the node it comes from |
| TurningPoints.TableBounds | src/scheduling/layer_allocation.py:486-515 | Every row bounds from below the cost of every layer-to-host assignment that ends at its nodes |
| TurningPoints.Spelled | src/scheduling/layer_allocation.py:517-526 | A finite entry is the cost of the assignment its back pointers spell |
| TurningPoints.BestPath | src/scheduling/layer_allocation.py:474-526 | The route is a cheapest assignment of hosts to all layers whenever one of finite cost exists |
| TurningPoints.LayerCostIsTime | src/scheduling/layer_allocation.py:494-515 | An assignment costs the milliseconds of its layers plus those of its moves, each as measured by the node left or else by the node entered, and infinity when one of them is missing |
| TurningPoints.BestRouteInTime | src/scheduling/layer_allocation.py:474-526 | No assignment of all layers takes fewer milliseconds than the route |
| TurningPoints.CutTails | src/scheduling/layer_allocation.py:528-538 | Each node is cut where its first stretch on the route ends, and the tails reported are exactly those cuts |
| TurningPoints.CutHeads | src/scheduling/layer_allocation.py:539-554 | Each node loses the layers before its first use, and the heads reported are exactly those cuts; no reallocation is empty |
| TurningPoints.AdjustForTurningPoints | src/scheduling/layer_allocation.py:461-555 | After trimming every node on the cheapest route holds exactly the layers of its first stretch there and the others are unchanged; without a finite route nothing changes |
| TurningPoints.TrimmedRouteHosted | src/scheduling/layer_allocation.py:528-554 | After trimming, every layer is still hosted by its node on the route if and only if the route never returns to a node it left |
| TurningPoints.TrimmedRangesTile | src/scheduling/layer_allocation.py:528-554 | When the route never returns, exactly one node on it hosts each layer |
| TurningPoints.BestRouteMayReturn | src/scheduling/layer_allocation.py:528-538 | A cheapest route can return: in a three-layer example every cheapest route does, and trimming leaves layer 2 unhosted |
| StayingRoutes.StickyNeverReturns | src/scheduling/layer_allocation.py:474-526 | When leaving a node and coming back costs more than all layers could save elsewhere, a cheapest route never returns to a node it left |
| StayingRoutes.StickyRouteHosted | src/scheduling/layer_allocation.py:528-554 | Under that condition on latencies and round-trip times alone, trimming leaves every layer of the route hosted |
| ShardRouting.Relax | src/scheduling/request_routing.py:357-373 | Relaxing one node from every ready node that ends where it starts makes its entry bound every chain that ends in it |
| ShardRouting.Reconstruct | src/scheduling/request_routing.py:383-391 | Following parents ends and gives a contiguous chain from layer 0 whose cost is the entry |
| ShardRouting.FindOptimalPath | src/scheduling/request_routing.py:308-391 | The path is a contiguous cover of all layers by ready nodes and takes the reported milliseconds: its stage latencies plus its hops, and no cover takes fewer; infinity is reported exactly when no cover of finite time exists |
| ShardRouting.CostIsTime | src/scheduling/node.py:390-407 | A chain costs its stage latencies plus its hops: none within a node, else what the first node measured, else what the second measured; it is infinite exactly when a stage is overloaded or a hop was measured by neither |
| ShardRouting.CoverServes | src/scheduling/request_routing.py:318-321 | On a cover every layer is served by a ready node, by one only |
| PipelineDiscovery.JoinsAscends | src/scheduling/request_routing.py:487-498 | Every step of a chain moves forward, so the search ends |
| PipelineDiscovery.Search.Dfs | src/scheduling/request_routing.py:482-498 | The search adds every completion of its path exactly once and nothing else, and leaves the path as it was |
| PipelineDiscovery.Discover | src/scheduling/request_routing.py:452-508 | The list holds every contiguous chain from layer 0 to the last exactly once, and nothing else |
| PipelineCounts.WaysThrough | src/scheduling/node_management.py:375-384 | One more range extends the ways to its end by the ways to its start, each once |
| PipelineCounts.Tally | src/scheduling/node_management.py:381-384 | After each range, the count at every boundary is the number of distinct chains of the ranges so far that reach it |
| PipelineCounts.ListAllocations | src/scheduling/node_management.py:333-350 | Lists the active (and, if asked, ready) nodes with layers in registry order, or the first whose range is out of bounds |
| PipelineCounts.NumFullPipelines | src/scheduling/node_management.py:352-386 | The count is the number of distinct full chains, of ready nodes only if asked; an error exactly when the range of a node that counts is empty or leaves the model |
| PipelineCounts.CountIsDiscovered | src/scheduling/node_management.py:352-386 | The one-pass count equals the number of pipelines the depth-first search lists |
| PipelineCounts.HasFullPipeline | src/scheduling/node_management.py:388-390 | True exactly when some full chain exists |
| FixedPipelines.EstimateLatency | src/scheduling/request_routing.py:60-83 | The running total with early exits is the sum of latencies and hops, infinite as soon as one is |
| FixedPipelines.GroupByHead | src/scheduling/request_routing.py:608-622 | Groups hold exactly the non-empty, repeat-free pipelines of finite latency, by head |
| FixedPipelines.SortGroups | src/scheduling/request_routing.py:624-625 | Groups come by their best latency |
| FixedPipelines.FlatOnce | src/scheduling/request_routing.py:646-649 | Disjoint repeat-free pipelines list no node twice, so the safety check passes |
| FixedPipelines.SelectBest | src/scheduling/request_routing.py:597-657 | The selection never fails its safety check; picks are disjoint, each the cheapest of its head that avoids earlier picks, heads by best latency, the first the fastest of all, and every finite pipeline shares a node with a pick |
| Lifecycle.JoinedOk | src/scheduling/scheduler.py:285-309 | A fresh join keeps the registry invariant |
| Lifecycle.AllocatedOk | src/scheduling/layer_allocation.py:149-167 | Giving a standby node layers keeps the invariant |
| Lifecycle.StoodByOk | src/scheduling/node_management.py:286-295 | Sending unregistered nodes to standby keeps the invariant |
| Lifecycle.LeftOk | src/scheduling/node_management.py:161-181 | A leave keeps the invariant, and every member it sends to standby was active |
| Lifecycle.EnrolledOk | src/scheduling/node_management.py:404-430 | Registering one more pipeline of free active nodes keeps the invariant |
| Lifecycle.RegisteredDisjoint | src/scheduling/node_management.py:416-420 | Under the invariant two registered pipelines share no node |
| Lifecycle.EveryLayerServed | src/scheduling/node_management.py:38-88 | Every registered pipeline serves every layer at one active member |
| Lifecycle.SortedArrangement | src/scheduling/node_management.py:42-47 | Sorting by range finds the order in which nodes cover all layers whenever there is one, and leaves such an order unchanged |
| NodeManagement.NodeManager.Upsert | src/scheduling/node_management.py:206-213 | A fresh node is filed on standby; the invariant is kept |
| NodeManagement.NodeManager.StandbyLocked | src/scheduling/node_management.py:215-241 | Succeeds exactly when every id is known (or may be missing), active, and not listed before |
| NodeManagement.ShownAlike | src/scheduling/node.py:322-345 | What the registry statements compare of a node is exactly its layers, its requests and its measured latency, all of which clearing resets |
| NodeManagement.NodeManager.StandBy | src/scheduling/node_management.py:286-295 | Success sends exactly the named nodes to standby without layers or requests |
| NodeManagement.NodeManager.Detach | src/scheduling/node_management.py:161-181 | The other members go to standby without layers, and none of the members belongs to the pipeline any more |
| NodeManagement.NodeManager.Remove | src/scheduling/node_management.py:243-266 | Removing a known node never raises; it is gone from the join order, which is otherwise kept, its pipeline is dissolved, exactly the other members are on standby without layers, and the invariant is kept |
| NodeManagement.NodeManager.Allocate | src/scheduling/layer_allocation.py:149-167 | Succeeds exactly for a known standby node and a non-empty range inside the model; a refused attempt leaves behind exactly what was written before it was refused |
| NodeManagement.NodeManager.BuildPipeline | src/scheduling/node_management.py:38-106 | A pipeline is built exactly when the ids can be arranged to cover all layers; ids already in that order keep it |
| NodeManagement.NodeManager.Enroll | src/scheduling/node_management.py:414-428 | Registers exactly when the ids can be arranged and none has a pipeline; the overlap error is the only one that breaks the invariant |
| NodeManagement.NodeManager.RegisterPipelines | src/scheduling/node_management.py:404-430 | Succeeds exactly when every list can be arranged and no node is listed twice; then the registry holds exactly the lists, and no state changes |
| NodeManagement.NodeManager.ExtendRegisteredPipelines | src/scheduling/node_management.py:432-454 | The invariant survives exactly when the overlap error does not happen; on success the old pipelines stay and the new ones follow |
| NodeManagement.NodeManager.ClearRegisteredPipelines | src/scheduling/node_management.py:456-461 | Under the invariant clearing never raises: all members go to standby and no pipeline is left |
| NodeManagement.NodeManager.ActiveNodes | src/scheduling/node_management.py:319-324 | Exactly the active nodes, each once |
| RoundRobin.ChainTiles | src/scheduling/request_routing.py:482-508 | What the search finds over valid active nodes covers all layers without repeating a node |
| RoundRobin.TilesChain | src/scheduling/request_routing.py:482-508 | Active nodes that cover all layers are a chain the search finds |
| RoundRobin.PicksRegistrable | src/scheduling/request_routing.py:683-688 | Disjoint chains from the search pass pipeline construction and registration as they are |
| NodeTiming.PathCost | src/scheduling/node.py:375-407 | The cost of a path over the active nodes is finite exactly when every stage takes requests and every hop was measured, and is then the roofline or measured time of every stage, grown with its load, plus the measured hops |
| NodeTiming.CoverOfNodes | src/scheduling/request_routing.py:320-331 | A cover over the active nodes is made of nodes that report ready and whose own ranges follow one another over all layers |
| RoundRobin.SelectionInTime | src/scheduling/request_routing.py:659-688 | In milliseconds from the nodes themselves: a pipeline is registered exactly when some active nodes cover all layers in finite time, and the first takes no longer than any such nodes |
| RoundRobin.Router.Choose | src/scheduling/request_routing.py:677-687 | The pipelines chosen over the active nodes are disjoint full chains, the first the fastest, and every other finite chain shares a node with one of them |
| RoundRobin.Router.Bootstrap | src/scheduling/request_routing.py:659-688 | Bootstrap never raises and starts the turns over if pipelines were registered: discovery, selection, construction and registration compose, the registered pipelines are the picks stage by stage, one is registered exactly when active nodes can serve in finite time, the first takes the fewest milliseconds, and the invariant is kept |
| RoundRobin.Router.Dispatch | src/scheduling/request_routing.py:822-858 | Serves the viable pipeline whose turn comes first, reports the milliseconds of its stages and hops, and moves the cursor past it; gives nothing exactly when none is viable |
| RoundRobin.Router.FindOptimalPath | src/scheduling/request_routing.py:805-860 | The same after filling an empty registry with the best disjoint pipelines over the active nodes; a registry in use is not changed |
| Dispatching.NextTurn | src/scheduling/request_routing.py:825-831 | The first viable turn from the cursor on, within the attempts |
| Dispatching.TurnFound | src/scheduling/request_routing.py:825-860 | One round of attempts finds a turn exactly when some pipeline is viable |
| Dispatching.TurnsFollowWindow | src/scheduling/request_routing.py:822-858 | Consecutive turns serve the viable pipelines of consecutive cursor positions, in order |
| Dispatching.EachViableOnce | src/scheduling/request_routing.py:822-858 | With viability unchanged, as many consecutive turns as there are viable pipelines serve each of them exactly once |
| Scheduling.RegisteredServes | src/scheduling/node_management.py:352-390 | While a pipeline is registered the active nodes cover all layers |
| Scheduling.CountServes | src/scheduling/node_management.py:352-390 | Under the invariant the count is positive exactly when active nodes cover all layers, and meets no bad range |
| Placements.PlacedState | src/scheduling/layer_allocation.py:149-167 | The placements of one allocator run make exactly the placed nodes active and leave the others as they were |
| Placements.PlacedNext | src/scheduling/layer_allocation.py:149-167 | A placement is refused in its turn exactly when the placements up to it cannot all be made |
| Placements.AfterRefused | src/scheduling/layer_allocation.py:149-167 | A run of the allocator ends at its first refused placement, after what that attempt already wrote |
| Placements.TwoPipelinesOverlap | src/scheduling/request_routing.py:731-754 | Any four waiting nodes placed as two two-stage pipelines with the same cut: different covers of theirs share a node, so expanding over them breaks the registry |
| Scheduling.Scheduler.HasFullPipeline | src/scheduling/scheduler.py:143-145 | True exactly when active nodes cover all layers |
| Scheduling.Scheduler.AllocateFromStandby | src/scheduling/layer_allocation.py:804-948 | One run of the allocator raises exactly when its plan does or a placement is refused; the registry is then exactly as the placements up to there leave it, and sound unless the refused attempt wrote to a node; success means active nodes cover all layers |
| Scheduling.Scheduler.Bootstrap | src/scheduling/scheduler.py:154-202 | Bootstrap and reboot raise exactly when the allocator they run does; nodes and states are as that run leaves them; failure leaves nothing registered and not bootstrapped; success happens exactly when the placed nodes cover all layers, and registers the best disjoint pipelines of the active nodes, at least one exactly when some chain of theirs has finite latency |
| Scheduling.RoutedRegistry | src/scheduling/request_routing.py:682-688 | After choosing, a pipeline is registered exactly when some full chain is routable |
| Scheduling.OverloadedUnrouted | src/scheduling/scheduler.py:196-201 | An overloaded node that covers all layers alone: the cluster covers all layers, yet no chain is routable, so bootstrap succeeds with nothing registered |
| Scheduling.Scheduler.UnmeasuredUnregistered | src/scheduling/request_routing.py:60-83 | After a successful bootstrap over two stages with no measured round-trip time between them, nothing is registered though they serve all layers |
| Scheduling.Scheduler.Leave | src/scheduling/scheduler.py:356-370 | A leave of a known node never raises; an unknown id is refused and changes nothing |
| Scheduling.Scheduler.ProcessLeaves | src/scheduling/scheduler.py:610-665 | A rebalance fires exactly when a node left, nodes remain and the active ones no longer cover all layers; then the registry is already empty and every node goes to standby without error; it raises exactly when the allocator does; nodes and states are as its run leaves them, and without success nothing is registered |
| Scheduling.FoundRegistrable | src/scheduling/request_routing.py:731-748 | Pipelines found among newly active nodes can all be registered exactly when no two share a node |
| Scheduling.FoundOverlap | src/scheduling/request_routing.py:731-748 | Two found chains share a node exactly when two different covers by the newly active nodes do |
| Scheduling.Scheduler.ExpandPipelines | src/scheduling/request_routing.py:711-754 | The search happens exactly when nodes wait, the allocator does not raise and the placed nodes make the active ones cover all layers; otherwise every pipeline stays and nodes are as the allocator leaves them. Exactly the nodes that became active are searched for all their full chains; the registry stays sound exactly when no two different covers by the placed nodes share a node; sound additions follow the earlier pipelines |
| Scheduling.Scheduler.Join | src/scheduling/scheduler.py:285-346 | A fresh automatic join before bootstrap only files the node; after it the registry is exactly as the expansion leaves it: pipelines stay when it is skipped or raises, which is swallowed, and the invariant survives exactly when no two different covers by the placed nodes share a node |
| Scheduling.SharedCutOverlaps | src/scheduling/request_routing.py:731-754 | Two new pipelines that change nodes at the same layer always produce overlapping finds |
| RadixTree.SamePathSameNode | src/parallax/server/radix_cache.py:252-275 | No two nodes spell the same string |
| RadixTree.OnTheWay | src/parallax/server/radix_cache.py:206-229 | Spelling a prefix and being an ancestor are the same |
| RadixTree.HoldsPrefix | src/parallax/server/radix_cache.py:277-317 | A node on the way to another holds a prefix of its positions and of its keys and values |
| RadixTree.NoChildLongest | src/parallax/server/radix_cache.py:252-275 | Where no child takes the next token, the string matched so far is the longest stored prefix |
| RadixTree.NextEntry | src/parallax/server/radix_cache.py:259-275 | Going on into a child, however far along its key, enters that child and no other node |
| RadixTree.SplitTree | src/parallax/server/radix_cache.py:277-317 | Splitting a node keeps a well-formed trie |
| RadixTree.SplitContents | src/parallax/server/radix_cache.py:277-317 | Splitting changes neither the stored strings nor what any old node spells and fetches |
| RadixTree.LeafTree | src/parallax/server/radix_cache.py:366-383 | Hanging a leaf keeps a well-formed trie |
| RadixTree.PruneTree | src/parallax/server/radix_cache.py:385-391 | Removing a leaf keeps a well-formed trie |
| RadixCache.SplitAccounted | src/parallax/server/radix_cache.py:277-317 | Splitting copies the lock count and keeps both size counters exact |
| RadixCache.Cache.SplitNode | src/parallax/server/radix_cache.py:277-317 | The split in place is the split of the specification |
| RadixCache.Cache.MatchPrefix | src/parallax/server/radix_cache.py:130-154 | Ends at the longest stored prefix of the key and returns its positions; the stored set, every old fetch and every lock stay as they were though nodes split; exactly the nodes the match entered count as used now |
| RadixCache.Cache.Insert | src/parallax/server/radix_cache.py:333-383 | Stores exactly the prefixes of the key in addition, returns the length of the longest prefix stored before, and ends at a node that spells the key; the new leaf holds the positions and the keys and values from there on; given one key and value per token, every node has one per token; exactly the nodes the walk entered and the new ones count as used now; for the empty key there is no such node and nothing is stored |
| RadixCache.Cache.FetchKvCache | src/parallax/server/radix_cache.py:156-168 | Collects the keys and values of the whole string the node spells |
| RadixCache.Cache.PrefixHeld | src/parallax/server/radix_cache.py:156-168 | With one key and value per token, a node, also one a split made, fetches exactly its own tokens of what the nodes below it fetch |
| RadixCache.Cache.IncreaseLockRef | src/parallax/server/radix_cache.py:206-216 | Locks exactly the nodes on the way from the root, root excluded; the counters move together |
| RadixCache.Cache.DecreaseLockRef | src/parallax/server/radix_cache.py:218-229 | Unlocks exactly those nodes, never below zero |
| RadixCache.Cache.CollectLeaves | src/parallax/server/radix_cache.py:319-331 | Exactly the childless nodes |
| RadixCache.Cache.TotalSize | src/parallax/server/radix_cache.py:412-423 | The traversal total is always the sum of the two counters |
| RadixCache.Cache.CountersCoverAll | src/parallax/server/radix_cache.py:86-110 | Evictable and protected counters together count every stored token |
| RadixCache.Cache.DeleteLeaf | src/parallax/server/radix_cache.py:385-391 | Removes one leaf and its tokens from the evictable count, nothing else |
| RadixCache.Cache.Evict | src/parallax/server/radix_cache.py:176-195 | Only unlocked nodes go, least recently used leaves first; a locked node and its ancestors stay with their contents; it stops only when enough tokens went or every remaining leaf is locked, and without the last node not enough had gone |
| BlockTrie.OnePath | src/parallax/server/block_radix_cache.py:68-117 | No two reachable nodes spell the same blocks |
| BlockTrie.Ancestor | src/parallax/server/block_radix_cache.py:68-117 | Every prefix of a stored block path is stored: some reachable node spells it |
| BlockTrie.NextStored | src/parallax/server/block_radix_cache.py:89-108 | A block path is stored one block further exactly when the child filed under the first token has the same tokens |
| BlockTrie.PlacedTree | src/parallax/server/block_radix_cache.py:144-166 | Putting a block in place of a sibling with the same first token keeps a well-formed trie of what is still reachable |
| BlockTrie.PrunedTree | src/parallax/server/block_radix_cache.py:251-258 | Taking a leaf out keeps a well-formed trie |
| BlockCache.Cache.MatchPrefix | src/parallax/server/block_radix_cache.py:68-117 | Returns the block ids along the longest stored block-aligned prefix; nothing stored and no lock changes; exactly the matched nodes count as used now |
| BlockCache.Cache.PlaceBlock | src/parallax/server/block_radix_cache.py:139-166 | Gives the node that spells the parent path and the block: the old one when it is stored, else a new unlocked one, counted once |
| BlockCache.PlacedStored | src/parallax/server/block_radix_cache.py:144-166 | Before eviction the stored paths are the new one and the old ones, except those through another block with the same first token under the same parent |
| BlockCache.Cache.InsertBlock | src/parallax/server/block_radix_cache.py:119-175 | Insertion, locked if asked, then eviction down to the limit and no further, oldest unlocked leaves first: the nodes cut off are exactly those through a rival block, only nodes no request holds are evicted, a locked block stays, and it ends within the limit or with every leaf locked |
| BlockCache.Cache.CountIsReachable | src/parallax/server/block_radix_cache.py:166-173 | The block count is that of the reachable blocks exactly when no insertion cut a node off; nodes cut off are never reachable again, so never reported |
| BlockCache.Cache.IncreaseLockRef | src/parallax/server/block_radix_cache.py:177-183 | Every node but the root gains one lock per occurrence, and exactly the nodes listed count as used now |
| BlockCache.Cache.DecreaseLockRef | src/parallax/server/block_radix_cache.py:185-196 | Every node but the root loses one lock per occurrence, never below zero |
| BlockCache.Cache.RegisterRequest | src/parallax/server/block_radix_cache.py:198-201 | Every lock count stays the number of times live requests hold the node plus the locks orphaned; registering a live id again orphans exactly what it held |
| BlockCache.Cache.ReleaseRequest | src/parallax/server/block_radix_cache.py:203-212 | Releasing takes back exactly what was registered, so the clamp at zero never acts and the counts stay exact; an unknown id changes nothing |
| BlockCache.Cache.HeldLocked | src/parallax/server/block_radix_cache.py:198-212 | A node a live request holds is locked, even when it was cut off |
| BlockCache.Cache.CollectLeaves | src/parallax/server/block_radix_cache.py:237-249 | Exactly the childless reachable nodes below the root, each once |
| BlockCache.Cache.DeleteLeaf | src/parallax/server/block_radix_cache.py:251-264 | Takes out exactly the leaf, reports its block and lowers the count by one |
| BlockCache.Cache.EvictNext | src/parallax/server/block_radix_cache.py:220-233 | One turn of the loop evicts an unlocked leaf that is oldest among all unlocked ones, passes over a locked one, or ends at the root because every leaf is locked |
| BlockCache.Cache.EvictLruBlocks | src/parallax/server/block_radix_cache.py:214-235 | Reports each evicted block once and lowers the count by as many; none is held by a request; of the leaves unlocked at first none goes before an older one or while an older one stays; it evicts all it was asked for, or every leaf left is locked |
| BlockCache.ReportedOnce | src/parallax/server/block_radix_cache.py:259-261 | Where block ids are distinct, no id is reported twice and none of a held node is reported |
| PagedCache.BlockAllocator.Allocate | src/parallax/server/cache/allocator.py:18-31 | All or nothing: the last blocks of the free list, or none when there are fewer |
| PagedCache.BlockAllocator.Free | src/parallax/server/cache/allocator.py:33-40 | Blocks in use return to the free list, others are passed over; the pool stays partitioned |
| PagedCache.SlotsApart | src/parallax_extensions/ops.py:82-91 | Slots of distinct positions of one request, or of any positions of two requests, are distinct |
| PagedCache.SlotPlace | src/parallax_extensions/ops.py:82-91 | The slot of a position lies in the block of that position, as far in as the position does |
| PagedCache.FewestBlocks | src/parallax/server/cache_manager.py:335 | A number of blocks has room for a prompt exactly when it is at least the number asked for: never one too many |
| PagedCache.OneMorePosition | src/parallax/server/cache_manager.py:424-430 | One more token needs one more block exactly when the last block is full |
| PagedCache.ContentsGrow | src/parallax/server/cache_manager.py:330-355 | New blocks leave what every request has stored as it is |
| PagedCache.ContentsLess | src/parallax/server/cache_manager.py:370-398 | Dropping one request leaves the others as they are |
| PagedCache.ContentsWrite | src/parallax_extensions/ops.py:82-91 | Writing one slot changes that position of that request and nothing else |
| PagedCache.CacheManager.AllocateRequest | src/parallax/server/cache_manager.py:277-368 | Succeeds exactly for a known request or when the free blocks have room for the prompt; failure changes nothing, success takes the fewest blocks, adds one request of the prompt length and touches no other |
| PagedCache.CacheManager.AppendSlot | src/parallax/server/cache_manager.py:410-430 | Fails exactly when the last block is full and none is free, changing nothing; success adds one position at the end, in a free block when a new one is needed |
| PagedCache.CacheManager.FreeRequest | src/parallax/server/cache_manager.py:370-398 | Removes exactly that request and returns exactly its blocks |
| PagedCache.CacheManager.SlotMapping | scripts/generate.py:155-161 | The slot of every position of a request, inside the pool |
| PagedCache.CacheManager.Prefill | scripts/generate.py:155-175 | Afterwards the request reads back exactly the prefilled tokens, the others what they had |
| PagedCache.CacheManager.Decode | src/parallax_extensions/ops.py:69-91 | Writes the newest token of each request of a batch and nothing else |
| PagedCache.CacheManager.Gather | src/parallax_extensions/ops.py:82-91 | Reading through the block table gives the private sequence of the request |
| ToolCalls.Find | src/parallax/utils/tokenizer_utils.py:199-212 | The first occurrence of the marker from an index on |
| ToolCalls.ToolCallState.ExtractFromSegment | src/parallax/utils/tokenizer_utils.py:191-223 | The index loop over one segment computes the marker-by-marker extraction from the carried state |
| ToolCalls.ScanSplit | src/parallax/utils/tokenizer_utils.py:191-223 | Cutting text anywhere but inside a marker the extraction recognises, and extracting piece by piece, gives the same text, calls and state |
| ToolCalls.WholeIsBetween | src/parallax/utils/tokenizer_utils.py:199-212 | A cut that no marker occurrence lies across is not inside a recognised marker |
| ToolCalls.StreamingIsOneShot | src/parallax/utils/tokenizer_utils.py:191-223 | For every chunking none of whose boundaries lies inside a recognised marker, streaming equals one-shot extraction: text, calls with their indices, final state |
| ToolCalls.WholeMarkersStream | src/parallax/utils/tokenizer_utils.py:191-223 | In particular streaming equals one-shot extraction when no marker at all lies across a chunk boundary |
| ToolCalls.NothingLost | src/parallax/utils/tokenizer_utils.py:181-223 | When no call parses, text passed on and text pending make up the input |
| ToolCalls.NothingLostStreaming | src/parallax/utils/tokenizer_utils.py:181-223 | When no call parses, streamed text and text pending make up the input, wherever it was cut |
| ToolCalls.FailuresGiveBackInput | src/parallax/utils/tokenizer_utils.py:181-223 | A parser that always fails and a stream that ends outside a call give back the input, wherever it was cut |
| ToolReplies.TakenApart | src/parallax/utils/tokenizer_utils.py:168-223 | A reply of plain texts and calls between markers is taken apart again: plain text comes out in order, every call that parses is reported once, call k of the stream with index k, and one that does not parse comes out as written |
| ToolReplies.StreamedApart | src/parallax/utils/tokenizer_utils.py:168-223 | The same for the reply in chunks none of whose boundaries lies inside a recognised marker |
| ToolCalls.CutMarkerMissed | src/parallax/utils/tokenizer_utils.py:199-205 | A marker cut by a chunk boundary is missed: the premise on chunk boundaries cannot be dropped |
| ToolCalls.CutMayNotShow | src/parallax/utils/tokenizer_utils.py:199-212 | A cut inside a recognised marker that changes nothing: the premise is not necessary for every parser |

## Left out

- Threads, queues, timeouts, heartbeats, logging, snapshots, RPC, HTTP and the command line.
- Tensors, attention kernels, weights and models: a token's keys and values are an opaque pair.
- Floating-point rounding: reals stand for floats, so comparisons and sums are exact.
- Roofline and FLOP estimates, and the memory arithmetic behind capacities and request limits: given numbers.
- Layer-load totals and the heap of lightest layers, dynamic joins to the lightest layer, and rebalancing on load imbalance (the default threshold never asks for it).
- Manual layer assignments, re-joining a known node id, and replacing a registered node object.
- One method that builds pipelines over the registry's nodes and fills them: builder and filler work on workers, are proved separately, and are related by `BuiltPipelines`; the registry sees their placements.
- The stand-alone report of turning points (`request_routing.py:86-177`): the same route, without the trimming.
- The randomised router over dynamic pipelines: its enumeration is modelled, its random choice is not.
- Pipeline capacity reports and request counters.
- The prefix-cache mode of the cache manager: it hands block lists of the trie to requests, and so changes who owns a block outside the trie's methods.
- BlockCache.Cache.InsertBlock: only under a reachable parent; what hangs below a node that was cut off is not described.
- Printing and statistics of the block cache.
- Page sizes above one token, request bookkeeping and printing in the radix cache.
- Request slots of hybrid models in the cache manager.
- Call ids (`uuid4`) and JSON formatting of tool-call arguments; a tool parser is a pure function that may fail.
- Scheduling.Scheduler.Join: only nodes whose id is not known yet, and without a manual layer assignment; a node that joins again replaces an object its pipeline still refers to.
- NodeManagement.NodeManager.Upsert: only ids that are not known yet, for the same reason.
- Workers.Worker.Deallocate: layer loads, request counts and measured latencies are not part of a worker; the registry's own nodes have the latter two.
- The error over zero cluster memory in the rebalance check, and rebalances skipped for manual assignments.
- NodeManagement.NodeManager.RegisterPipelines: what a failed registration leaves behind is not described; in the scheduler it never fails.
- ShardRouting.FindOptimalPath: among covers of equal cost the one returned is not fixed.
- FixedPipelines.SelectBest: among heads, or pipelines of one head, of equal latency the order is not fixed.
- PipelineDiscovery.Discover: the order in which pipelines are listed is not stated.
