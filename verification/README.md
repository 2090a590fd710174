# Verified models of gem5 with SWAP

A Dafny model of parts of the gem5 simulator as distributed with SWAP, a scheme for
networks on chip in which packets that wait for each other exchange places. It models

- the west-first mesh (`Grid`, `MeshTopology`), the switch graph and weight matrix built
  from it (`SwitchGraph`), the shortest-path computation (`ShortestPaths`), the routing
  tables (`RoutingTable`, `WestFirst`, `RoutingUnit`), packets moving through the network
  as a transition system (`MeshNetwork`, `DeadlockFreedom`, `MinimalRouting`), the test
  whether a packet may move (`SwitchAllocation`), the swap step (`Swap`) and the pointer
  that offers packets for it (`SwapPointer`, `SwapOffers`);
- the O3 pipeline viewer: its reorder buffer (`ReorderBuffer`) and its rows (`Timeline`);
- the checkpoint upgrader: registration (`UpgraderRegistry`), scheduling
  (`UpgradeScheduler`), the order of downgrades (`DowngradeOrder`) and of upgrades from the
  old numbered versions (`LegacyUpgrades`);
- port binding from a configuration file (`PortBinder`, `PortOrders`), the periodic
  checkpoint driver (`CheckpointDriver`, `CheckpointOutcome`), length-prefixed messages
  (`Protolib`), dependency traces as text (`InstDepTrace`), the memory tester's cache tree
  (`CacheTree`), merging checkpoints (`CheckpointMerge`) and copyright years
  (`CopyrightYears`).

`Options`, `Machine`, `Sequences`, `Sorting` and `Strings` are shared.

The main results:

- `RoutingUnit.SetUpRouting`, `WestFirst.TableIsWestFirst`,
  `DeadlockFreedom.EveryPacketIsDelivered`, `DeadlockFreedom.TablesRouteWestFirstIff`,
  `RoutingUnit.BuiltInRangeIff`: the link weights of the mesh script, taken through the
  shortest-path computation and the table lookup, give exactly west-first routing; every
  run then delivers every packet. The constant for an infinite latency caps distances, so
  this holds if and only if no route is dearer than the cap: rows and columns add up to at
  most 5001 when every router has a controller, columns and twice the rows to at most 10002
  when there are fewer controllers than routers.
- `MinimalRouting.MinimalDeadlocksIff` and `Swap.SwapLeavesNoDeadEnd`: with a controller at
  every router, unrestricted minimal routing can deadlock if and only if there is more than
  one row and column; with swaps, even only from base channels, every reachable state can
  still deliver all.
- `RoutingUnit.AdaptWestFirstChoosesIff`, `Swap.CanTradeIff`, `SwapPointer.ScanIff`: exactly
  which direction is taken, which packets trade places, and which packet is offered first.
- `SwitchAllocation.KeepsOrderIff`, `SwapPointer.StaysInBaseIff`: when ordered networks are
  in order, and when the swap pointer offers no channel but the first.
- `ReorderBuffer.InOrderIff`: the exact window within which a bounded buffer sorts;
  `Timeline.RowReads`: what every row of the viewer reads.
- `UpgradeScheduler.AbortsIffNoOrder`, `UpgradeScheduler.FinalTags`: the round scheduler is
  complete for upgraders and its outcome does not depend on set iteration;
  `LegacyUpgrades.LegacyAppliedInOrder`: legacy versions are upgraded one by one.
- `CheckpointOutcome.OutcomeIff`, `CheckpointOutcome.GoesOnToMaxtick`: which exit event the
  checkpoint driver returns, for every simulator.
- `DowngradeOrder.RuleHoldsIff`, `CheckpointDriver.FullIff`: when two promises the scripts
  make in their comments are kept.
- `PortBinder.SucceedsIffOrderable`, `PortOrders.BindableIffRepeated`: the greedy pass is
  optimal for its sorted order, and repeating it is optimal for all orders.

`dafny verify dfyconfig.toml` checks the project.

Where code and comments disagree the model follows the code:

- gem5/util/o3-pipeview.py:51-52 says that instructions out of order by more than
  min_threshold places appear out of order. They may not; `InOrderIff` has the condition.
- gem5/util/cpt_upgrader.py:60-65 says that a dependency on a downgraded tag waits for its
  removal. The code asks for its presence, so both run in one round, in the order of a set,
  or the dependent runs first; `RuleCanHoldIff` and `RuleHoldsIff` have the conditions.
- gem5/configs/example/read_config.py:311-313 says that one direction of every connection
  can be bound. `CrossingPairCannotBeBound` is a list where none can. Line 336 says that the
  bindings cannot be ordered where it may be that one pass in sorted order cannot bind them;
  `RaisesThoughBindable` is such a list and `RaisesRightlyIff` has the condition.
- gem5/configs/common/Simulation.py:688-691 says that guest checkpoints are skipped. One in
  an interval ends the series after the checkpoint of that interval; `FullIff` has the
  condition. Checkpoints also drift by the ticks that draining takes; `OnScheduleIff` has
  the condition.
- gem5/src/mem/ruby/network/garnet2.0/SwitchAllocator.cc:335-338 says that a packet of an
  ordered virtual network waits for earlier ones. The output the check compares with is
  never recorded, since the call in InputUnit.cc:139 is commented out. `LaterMayGoFirst` has
  states where it does not wait; `KeepsOrderIff` has the condition.
- gem5/src/mem/ruby/network/garnet2.0/Router.cc:446 says that the swap pointer becomes
  invalid when every input port is empty. `InvalidIff` has the condition, `Stranded` a router
  that holds a packet.
- gem5/util/protolib.py writes empty messages, and messages of 2^32 bytes or more, that it
  does not read back; `MessagesRoundTripIff` has the condition.
- gem5/util/find_copyrights.py reads only ranges of four-digit years;
  `DatesRoundTripIff` has the condition.
- gem5/util/checkpoint_aggregator.py pads with the character 0, and does not notice a
  store shorter than its declared pages; `RangeSizeIff` has the condition.

## Model

| member | source | states |
|---|---|---|
| `ShortestPaths.BestDetour` | gem5/src/mem/ruby/network/Topology.cc:231-244 | the smallest sum over one intermediate switch, never above the direct distance, and whether any detour is strictly shorter |
| `ShortestPaths.SweepEntry` | gem5/src/mem/ruby/network/Topology.cc:231-254 | one entry: improved to the best detour, with a smaller sum, or unchanged and settled |
| `ShortestPaths.SweepRow` | gem5/src/mem/ruby/network/Topology.cc:229-254 | one pass over a row keeps the distances attained by walks; if it changes anything it reports so and lowers their sum; if it reports nothing the row is settled |
| `ShortestPaths.Improve` | gem5/src/mem/ruby/network/Topology.cc:245-252 | an improved entry is still the weight of some walk, and the total falls, which is why the passes end |
| `ShortestPaths.SettledGivesLeast` | gem5/src/mem/ruby/network/Topology.cc:227-256 | when no detour improves anything, every distance is the least weight of a walk between its switches |
| `ShortestPaths.ShortestPath` | gem5/src/mem/ruby/network/Topology.cc:218-265 | terminates, and every entry of the result is the least weight over all walks, attained by one of them |
| `ShortestPaths.PotentialBoundsWalk` | gem5/src/mem/ruby/network/Topology.cc:218-265 | a function that no entry of the matrix can outrun bounds the weight of every walk from below |
| `ShortestPaths.LeastWeightTriangle` | gem5/src/mem/ruby/network/Topology.cc:268-273 | least weights obey the triangle inequality the link test relies on |
| `MeshTopology.EastLinks` | gem5/configs/topologies/Mesh_westfirst.py:116-127 | exactly one link per router with an eastern neighbour, to that neighbour, weight 2, ids consecutive |
| `MeshTopology.WestLinks` | gem5/configs/topologies/Mesh_westfirst.py:129-140 | the same westward, weight 1 |
| `MeshTopology.NorthLinks` | gem5/configs/topologies/Mesh_westfirst.py:143-154 | the same northward, weight 2, in column order |
| `MeshTopology.SouthLinks` | gem5/configs/topologies/Mesh_westfirst.py:156-167 | the same southward, weight 2 |
| `MeshTopology.FourDirections` | gem5/configs/topologies/Mesh_westfirst.py:113-170 | the four lists together are exactly one link per ordered pair of adjacent routers, with distinct consecutive ids |
| `MeshTopology.ConnectRouters` | gem5/configs/topologies/Mesh_westfirst.py:113-170 | builds those links and advances the link counter past them |
| `MeshTopology.AttachNodes` | gem5/configs/topologies/Mesh_westfirst.py:81-111 | node k goes to router k mod routers, a remainder node to router 0; refused exactly when some remainder node is no DMA controller |
| `MeshTopology.EvenSpread` | gem5/configs/topologies/Mesh_westfirst.py:81-111 | so every router gets the same number of controllers, and router 0 the remainder besides |
| `MeshTopology.MakeTopology` | gem5/configs/topologies/Mesh_westfirst.py:55-170 | succeeds if and only if the arguments describe a mesh it accepts, and then builds exactly the routers, external and internal links |
| `SwitchGraph.CollectLinks` | gem5/src/mem/ruby/network/Topology.cc:51-106 | the link map holds the links of the mesh network with their weights and no others |
| `SwitchGraph.FillWeights` | gem5/src/mem/ruby/network/Topology.cc:108-143 | the matrix spans the switches in use, is zero on the diagonal and infinite where there is no link |
| `SwitchGraph.MatrixOfMesh` | gem5/src/mem/ruby/network/Topology.cc:108-143 | on the mesh network it has one row per switch and the weight of each link in its place |
| `SwitchGraph.MeshMatrixIsWeightMatrix` | gem5/src/mem/ruby/network/Topology.cc:108-143 | it is a non-negative weight matrix capped by the infinite latency |
| `RoutingTable.ShortestPathToNode` | gem5/src/mem/ruby/network/Topology.cc:275-310 | the destinations of an output are exactly those to which its link starts a shortest path |
| `RoutingTable.BuildTable` | gem5/src/mem/ruby/network/Topology.cc:145-159 | a router's table has one entry per outgoing link, with its destinations and weight |
| `RoutingTable.Lookup` | gem5/src/mem/ruby/network/garnet2.0/RoutingUnit.cc:67-110 | draws among exactly the outputs of least weight that reach the destination, the first of them on ordered networks |
| `RoutingTable.EveryCandidateCanBeDrawn` | gem5/src/mem/ruby/network/garnet2.0/RoutingUnit.cc:103-108 | every candidate is drawn for some random number |
| `RoutingTable.ForwardsToLightestShortest` | gem5/src/mem/ruby/network/garnet2.0/RoutingUnit.cc:67-110 | a packet may be forwarded to a switch if and only if that is the lightest link on a shortest path |
| `WestFirst.StepChangesHops` | gem5/configs/topologies/Mesh_westfirst.py:36-48 | a hop changes the Manhattan distance by one, downwards exactly in a productive direction |
| `WestFirst.StepChangesCost` | gem5/configs/topologies/Mesh_westfirst.py:36-48 | link weight plus remaining cost never beats the cost, and meets it exactly in productive directions |
| `WestFirst.NoPathBeatsManhattan` | gem5/configs/topologies/Mesh_westfirst.py:113-170 | no path over the generated links is shorter than the Manhattan distance |
| `WestFirst.ManhattanPath` | gem5/configs/topologies/Mesh_westfirst.py:113-170 | a path of that length exists between any two routers |
| `WestFirst.DistanceOfRouter` | gem5/src/mem/ruby/network/Topology.cc:218-265 | the computed distance of a router from a controller is one more than the west-first cost, capped at 10000 |
| `WestFirst.ShortestLinkOut` | gem5/src/mem/ruby/network/Topology.cc:267-273 | a link out of the mesh is on a shortest path to its own controller only, within the cap |
| `WestFirst.ShortestMeshLink` | gem5/src/mem/ruby/network/Topology.cc:267-273 | a link between routers is on a shortest path if and only if its direction is productive, within the cap |
| `WestFirst.ShortestLinks` | gem5/src/mem/ruby/network/Topology.cc:267-273 | a link is on a shortest path if and only if it leads to the controller or in a productive direction, within the cap |
| `WestFirst.TableIsWestFirst` | gem5/src/mem/ruby/network/garnet2.0/RoutingUnit.cc:67-110 | the table forwards exactly the west-first choices, and nothing at all beyond the cap |
| `RoutingUnit.SetUpRouting` | gem5/configs/topologies/Mesh_westfirst.py:36-170 | from accepted arguments to tables: every router's table routes west-first, and none lacks a route if and only if the mesh is small enough |
| `RoutingUnit.BuiltIsAttached` | gem5/configs/topologies/Mesh_westfirst.py:81-111 | the built topology attaches every controller to a router of the mesh |
| `RoutingUnit.TablesOf` | gem5/src/mem/ruby/network/Topology.cc:108-159 | all tables of a mesh network are west-first |
| `RoutingUnit.HasRouteIff` | gem5/src/mem/ruby/network/Topology.cc:108-143 | a router has a route to a controller if and only if one more than the cost is within the cap |
| `RoutingUnit.AllRoutesExistIff` | gem5/src/mem/ruby/network/Topology.cc:108-143 | wherever the controllers sit, every route exists if and only if none is dearer than the cap |
| `RoutingUnit.InRangeIffSpread` | gem5/src/mem/ruby/network/Topology.cc:108-143 | with a controller at every router that is so if and only if rows + columns is at most 5001 |
| `RoutingUnit.InRangeIffAtRouter0` | gem5/src/mem/ruby/network/Topology.cc:108-143 | with all controllers at router 0, if and only if columns + 2 rows is at most 10002 |
| `RoutingUnit.AttachCovers` | gem5/configs/topologies/Mesh_westfirst.py:81-111 | with no fewer controllers than routers every router gets one; with fewer, all are at router 0 |
| `RoutingUnit.BuiltInRangeIff` | gem5/configs/topologies/Mesh_westfirst.py:36-170 | so for what the script builds the size of the mesh and the number of controllers decide |
| `RoutingUnit.LongRowHasNoRoute` | gem5/src/mem/ruby/network/Topology.cc:108-143 | a row of 5001 routers has no route from its first to its last |
| `RoutingUnit.AlgorithmsAgainstRule` | gem5/src/mem/ruby/network/garnet2.0/RoutingUnit.cc:177-574 | the direction-based west-first algorithms make exactly the table's choices, XY some of them, random routing exactly the productive ones |
| `RoutingUnit.AdaptiveRandomIsMinimal` | gem5/src/mem/ruby/network/garnet2.0/RoutingUnit.cc:298-421 | adaptive random routing makes exactly the productive choices over all congestion states |
| `RoutingUnit.XYChoosesIff` | gem5/src/mem/ruby/network/garnet2.0/RoutingUnit.cc:177-235 | XY routing chooses a direction if and only if it is productive, and horizontal unless the column is right |
| `RoutingUnit.RandomChoosesIff` | gem5/src/mem/ruby/network/garnet2.0/RoutingUnit.cc:237-296 | random routing chooses a direction if and only if it is productive and, where there are two, the one of the coin |
| `RoutingUnit.WestFirstChoosesIff` | gem5/src/mem/ruby/network/garnet2.0/RoutingUnit.cc:423-483 | west-first routing likewise of the directions the rule allows |
| `RoutingUnit.AdaptWestFirstChoosesIff` | gem5/src/mem/ruby/network/garnet2.0/RoutingUnit.cc:485-574 | adaptive west-first routing chooses a direction if and only if the rule allows it and every other allowed one has fewer free channels, or as many and the coin is against it |
| `RoutingUnit.AdaptRandomChoosesIff` | gem5/src/mem/ruby/network/garnet2.0/RoutingUnit.cc:298-421 | adaptive random routing likewise of all productive directions |
| `MeshNetwork.StepPreservesInv` | gem5/src/mem/ruby/network/garnet2.0/SwitchAllocator.cc:114-396 | injection, movement and delivery keep every packet in its own virtual channel, routed by the rule, and delivered packets at their destinations |
| `DeadlockFreedom.TurnRaisesRank` | gem5/configs/topologies/Mesh_westfirst.py:36-48 | two hops the rule allows in a row raise the channel rank, and the second is West only if the first was |
| `DeadlockFreedom.DependencyRaisesRank` | gem5/src/mem/ruby/network/garnet2.0/SwitchAllocator.cc:188-396 | the channel a packet waits for ranks above the one it holds, so waiting cannot be circular on any mesh |
| `DeadlockFreedom.NoTurnIntoWest` | gem5/configs/topologies/Mesh_westfirst.py:36-48 | in every reachable state no packet turns into a West link from another |
| `DeadlockFreedom.NeverStuck` | gem5/src/mem/ruby/network/garnet2.0/SwitchAllocator.cc:188-396 | every reachable state with packets has an enabled move or delivery; a move needs a free virtual channel and nothing else, which SwitchAllocation shows of the code |
| `DeadlockFreedom.DrainingLowersWork` | gem5/src/mem/ruby/network/garnet2.0/SwitchAllocator.cc:188-396 | each such step lowers the remaining hops and deliveries by exactly one |
| `DeadlockFreedom.DrainingKeepsPackets` | gem5/src/mem/ruby/network/garnet2.0/SwitchAllocator.cc:188-396 | none of them loses, duplicates or alters a packet |
| `DeadlockFreedom.ReachableInv` | gem5/src/mem/ruby/network/garnet2.0/InputUnit.cc:78-174 | the invariant holds in every reachable state |
| `DeadlockFreedom.EveryPacketIsDelivered` | gem5/configs/topologies/Mesh_westfirst.py:36-170 | every run without new injections ends after exactly the remaining work, with no packet left and each one at its destination |
| `DeadlockFreedom.TablesRouteWestFirstIff` | gem5/src/mem/ruby/network/garnet2.0/RoutingUnit.cc:67-110 | the generated tables give west-first routing if and only if no route is dearer than the cap |
| `DeadlockFreedom.TableRoutingDelivers` | gem5/src/mem/ruby/network/garnet2.0/RoutingUnit.cc:67-110 | then they deliver every packet of every run, each at its own controller |
| `DeadlockFreedom.AlgorithmsFollowRule` | gem5/src/mem/ruby/network/garnet2.0/RoutingUnit.cc:177-574 | XY routing and both direction-based west-first algorithms, over all coins and congestion states, choose by the rule and always find a direction |
| `DeadlockFreedom.DirectedRoutesWestFirst` | gem5/src/mem/ruby/network/garnet2.0/RoutingUnit.cc:177-574 | a network routed by such choices routes west-first, on meshes of any size |
| `DeadlockFreedom.RuleDelivers` | gem5/src/mem/ruby/network/garnet2.0/RoutingUnit.cc:177-574 | so every run of it delivers every packet at its own controller |
| `MinimalRouting.RandomRoutesFreely` | gem5/src/mem/ruby/network/garnet2.0/RoutingUnit.cc:237-296 | random routing makes all minimal choices and no others, on meshes of any size |
| `MinimalRouting.ChasersReachable` | gem5/src/mem/ruby/network/garnet2.0/RoutingUnit.cc:237-296 | under unrestricted minimal routing, four packets per virtual channel can be injected and moved round a square of routers |
| `MinimalRouting.ChaserTakesLowest` | gem5/src/mem/ruby/network/garnet2.0/OutputUnit.cc:109-122 | each of them takes the lowest free virtual channel, as the allocator does |
| `MinimalRouting.EachWaitsForTheNext` | gem5/src/mem/ruby/network/garnet2.0/SwitchAllocator.cc:341-395 | then whatever virtual channel a packet could take is held by a packet of the next corner |
| `MinimalRouting.LineRoutesWestFirst` | gem5/src/mem/ruby/network/garnet2.0/RoutingUnit.cc:237-296 | in a single row or column every minimal choice is a west-first choice |
| `MinimalRouting.MinimalDeadlocksIff` | gem5/src/mem/ruby/network/garnet2.0/RoutingUnit.cc:237-296 | with a controller at every router and any number of virtual channels, unrestricted minimal routing can reach a deadlock if and only if the mesh has more than one row and column |
| `MinimalRouting.RandomRoutingDeadlocksIff` | gem5/src/mem/ruby/network/garnet2.0/RoutingUnit.cc:237-296 | the same for random routing |
| `MinimalRouting.BuiltDeadlocksIff` | gem5/configs/topologies/Mesh_XY.py:78-107 | with controllers attached as the mesh scripts do: if and only if, besides, there are no fewer controllers than routers |
| `MinimalRouting.FourPacketsDeadlock` | gem5/src/mem/ruby/network/garnet2.0/RoutingUnit.cc:237-296 | the smallest case: the four packets on a 2x2 mesh with one virtual channel |
| `Swap.SwapKeepsPlaced` | gem5/src/mem/ruby/network/garnet2.0/Router.cc:537-635 | a swap leaves every packet in a channel of its own with a minimal output |
| `Swap.SwapKeepsPackets` | gem5/src/mem/ruby/network/garnet2.0/GarnetNetwork.cc:684-809 | a swap neither loses, duplicates nor alters a packet |
| `Swap.CanTradeIff` | gem5/src/mem/ruby/network/garnet2.0/Router.cc:537-591 | two packets can trade places if and only if the first waits for the buffer of the second, in the same channel, and neither is at the router of its destination |
| `Swap.SwapTrades` | gem5/src/mem/ruby/network/garnet2.0/GarnetNetwork.cc:684-809 | a swap exchanges the buffers of its two packets, leaves all others as they are, and moves no packet that has arrived |
| `Swap.CanInjectIff` | gem5/src/mem/ruby/network/garnet2.0/InputUnit.cc:78-174 | a packet can be injected into a channel of a controller's port if and only if that is free |
| `Swap.CanMoveIff` | gem5/src/mem/ruby/network/garnet2.0/SwitchAllocator.cc:341-395 | a packet can move into a channel behind its output if and only if it has not arrived and the channel is free and of its virtual network |
| `Swap.CanDeliverIff` | gem5/src/mem/ruby/network/garnet2.0/SwitchAllocator.cc:188-396 | a packet can be delivered if and only if it is at the router of its destination |
| `Swap.HopBringsCloser` | gem5/src/mem/ruby/network/garnet2.0/GarnetNetwork.cc:684-809 | the packet that starts a swap gets one hop closer to its destination |
| `Swap.PushOn` | gem5/src/mem/ruby/network/garnet2.0/Router.cc:119-340 | a packet in the mesh, in a base channel of the lowest virtual network in use, gets a hop closer by a move or a swap started there, or the arrived packet in its way is delivered |
| `Swap.DeliverOne` | gem5/src/mem/ruby/network/garnet2.0/Router.cc:119-340 | such a packet can be brought to its destination without swaps started from other channels, and the packets at the controllers' ports stay there meanwhile |
| `Swap.DeliverAny` | gem5/src/mem/ruby/network/garnet2.0/Router.cc:119-340 | any chosen packet can be brought to its destination by moves and such swaps |
| `Swap.SwapLeavesNoDeadEnd` | gem5/src/mem/ruby/network/garnet2.0/Router.cc:119-340 | from every reachable state under any minimal routing, moves and swaps started from the lowest base channel can deliver every packet to its destination |
| `Swap.RunsStayPlaced` | gem5/src/mem/ruby/network/garnet2.0/Router.cc:119-340 | the invariant this needs holds along every run with injections, moves, deliveries and swaps |
| `Swap.SwapResolvesDeadlock` | gem5/src/mem/ruby/network/garnet2.0/Router.cc:119-340 | on every mesh with more than one row and column, and any number of virtual channels, a deadlock of random routing that such swaps drain completely |
| `SwapPointer.Router.MovSwapPtr` | gem5/src/mem/ruby/network/garnet2.0/Router.cc:371-456 | the nested loops with their running counter move the pointer where the search on values says |
| `SwapPointer.MovedIsFirst` | gem5/src/mem/ruby/network/garnet2.0/Router.cc:371-456 | that is the first occupied one of the slots tested: from its channel on and then channel 0 at the next mesh port, channel 0 only at the others |
| `SwapPointer.InvalidIff` | gem5/src/mem/ruby/network/garnet2.0/Router.cc:425-453 | the pointer becomes invalid if and only if no tested slot is occupied |
| `SwapPointer.Stranded` | gem5/src/mem/ruby/network/garnet2.0/Router.cc:441-453 | so it can while a mesh port holds a packet, and the scan in wakeup leaves it invalid |
| `SwapPointer.Router.Revalidate` | gem5/src/mem/ruby/network/garnet2.0/Router.cc:151-179 | the scan makes it point to a channel if and only if that is the lowest occupied base channel of the first mesh port with one and its packet is not leaving the mesh, and leaves it invalid otherwise |
| `SwapPointer.ScanIff` | gem5/src/mem/ruby/network/garnet2.0/Router.cc:151-179 | the same of the scan on values, from any port on |
| `SwapPointer.HigherVcIff` | gem5/src/mem/ruby/network/garnet2.0/Router.cc:394-408 | from channel 0 it gets to a higher channel if and only if the next mesh port holds packets in higher channels only |
| `SwapPointer.StaysInBaseIff` | gem5/src/mem/ruby/network/garnet2.0/Router.cc:394-408 | while nothing moves, the pointer stays in channel 0 if and only if neither the mesh port behind it nor one behind a port with channel 0 occupied has packets in higher channels only |
| `SwapPointer.EveryPortGetsItsTurn` | gem5/src/mem/ruby/network/garnet2.0/Router.cc:371-456 | under that condition, and from channel 0, every mesh port with a packet in channel 0 gets its turn within one round |
| `SwapPointer.StaysInHigherIff` | gem5/src/mem/ruby/network/garnet2.0/Router.cc:394-408 | in a higher channel it stays, offering no other, if and only if every mesh port holds a packet in it |
| `SwapPointer.BaseStarves` | gem5/src/mem/ruby/network/garnet2.0/Router.cc:394-408 | three ports where the packets in channel 0 of two of them are never offered |
| `SwapPointer.HigherVcsPassedOver` | gem5/src/mem/ruby/network/garnet2.0/Router.cc:394-408 | no higher channel gets a turn from channel 0, however long, while every port with packets has channel 0 occupied |
| `SwapOffers.OfferedPacket` | gem5/src/mem/ruby/network/garnet2.0/Router.cc:151-179 | in every state of the network, the packet the scan offers is in a base channel of a mesh port and not at the router of its destination |
| `SwapOffers.OfferedCanSwap` | gem5/src/mem/ruby/network/garnet2.0/Router.cc:151-340 | with one virtual network, if that packet waits for one that has not arrived, the two can trade places by a swap of the kind with which every packet can be delivered |
| `SwapOffers.LowestIsOffered` | gem5/src/mem/ruby/network/garnet2.0/Router.cc:151-179 | and a packet such swaps may start from is offered by the scan if it is at the first of its router's ports in use |
| `SwitchAllocation.SelectFreeVc` | gem5/src/mem/ruby/network/garnet2.0/OutputUnit.cc:109-122 | the lowest idle channel of the virtual network, or none if none is idle |
| `SwitchAllocation.InputUnit.SendAllowed` | gem5/src/mem/ruby/network/garnet2.0/SwitchAllocator.cc:341-395 | a packet may be sent if and only if a channel is idle and the ordering check finds nothing |
| `SwitchAllocation.InputUnit.Arrive` | gem5/src/mem/ruby/network/garnet2.0/InputUnit.cc:108-139 | an arriving packet records its output in itself, not in the channel |
| `SwitchAllocation.InputUnit.SetIdle` | gem5/src/mem/ruby/network/garnet2.0/VirtualChannel.cc:53-61 | a channel whose packet has left has no output either |
| `SwitchAllocation.Replay` | gem5/src/mem/ruby/network/garnet2.0/InputUnit.cc:78-174 | through any arrivals and departures that can happen, the channels are those the events lead to |
| `SwitchAllocation.NeverRecorded` | gem5/src/mem/ruby/network/garnet2.0/InputUnit.cc:133-139 | and after any of them no channel has an output recorded |
| `SwitchAllocation.ChannelIsLast` | gem5/src/mem/ruby/network/garnet2.0/InputUnit.cc:108-139 | and every channel holds the packet that arrived with its last event, or is idle |
| `SwitchAllocation.RefusesNothing` | gem5/src/mem/ruby/network/garnet2.0/SwitchAllocator.cc:374-392 | so in every state that can be reached the ordering check finds nothing |
| `SwitchAllocation.MaySendIff` | gem5/src/mem/ruby/network/garnet2.0/SwitchAllocator.cc:341-395 | and a packet may be sent, on ordered networks too, if and only if some channel is idle |
| `SwitchAllocation.RecordedRefusesOvertakers` | gem5/src/mem/ruby/network/garnet2.0/SwitchAllocator.cc:335-338 | with outputs recorded it would find exactly the earlier packets for the same output |
| `SwitchAllocation.LaterMayGoFirst` | gem5/src/mem/ruby/network/garnet2.0/SwitchAllocator.cc:335-338 | on any ordered network with two channels, a reachable state where `send_allowed` lets a packet go before an earlier one for the same output |
| `SwitchAllocation.KeepsOrderIff` | gem5/src/mem/ruby/network/garnet2.0/SwitchAllocator.cc:335-338 | packets of an ordered network are sent in order in every reachable state if and only if it has no more than one channel |
| `Sorting.SortCorrect` | gem5/util/o3-pipeview.py:169-169 | the library sort orders by a total preorder and permutes |
| `Sorting.SortIsStable` | gem5/util/o3-pipeview.py:169-169 | and keeps the order of equivalent elements |
| `Sorting.SortOfSorted` | gem5/configs/example/read_config.py:322-323 | and leaves a sorted list as it is |
| `Sorting.SortedIsUnique` | gem5/configs/example/read_config.py:322-323 | where equivalent elements are equal, a list has one sorted order only |
| `ReorderBuffer.SortCorrect` | gem5/util/o3-pipeview.py:153-155 | sorting orders by sequence number and permutes |
| `ReorderBuffer.PrintKeeps` | gem5/util/o3-pipeview.py:167-188 | printing keeps all instructions, leaves the queue sorted and of the length asked for |
| `ReorderBuffer.QueueLength` | gem5/util/o3-pipeview.py:47-57 | the queue length after n arrivals, never above max_threshold |
| `ReorderBuffer.FlushTimes` | gem5/util/o3-pipeview.py:159-164 | printing starts at arrival max+1 and then every max-min+1 arrivals |
| `ReorderBuffer.FeedHead` | gem5/util/o3-pipeview.py:159-188 | what was popped, and the min_threshold instructions kept at the last printing, are what had arrived by then |
| `ReorderBuffer.OrderPermutes` | gem5/util/o3-pipeview.py:146-188 | with the end-of-file flush every instruction comes out exactly once |
| `ReorderBuffer.InOrderIff` | gem5/util/o3-pipeview.py:47-57 | the whole output is in order if and only if each instruction arrives with at most min_threshold larger ones among those present when printing last started |
| `ReorderBuffer.DocumentedAssumptionSuffices` | gem5/util/o3-pipeview.py:51-52 | the documented assumption, at most min_threshold places out of order, is enough |
| `ReorderBuffer.DocumentedAssumptionNotNecessary` | gem5/util/o3-pipeview.py:51-52 | but the remark that otherwise instructions appear out of order is not true in general: a trace of no more than max_threshold instructions comes out in order however it arrives |
| `ReorderBuffer.FilterKeepsOrder` | gem5/util/o3-pipeview.py:172-187 | the filters keep order and drop exactly what they should |
| `ReorderBuffer.PrintedIff` | gem5/util/o3-pipeview.py:172-187 | an instruction is printed if and only if it is in the trace, its number and fetch tick are within the bounds given, and it has retired if that is asked for |
| `ReorderBuffer.PrintedIsFilteredInput` | gem5/util/o3-pipeview.py:167-188 | what is printed is, as a multiset, the filtered input, and in order within the window |
| `ReorderBuffer.Viewer.PrintInsts` | gem5/util/o3-pipeview.py:167-188 | the loop over the queue does what the function on values says, filters included |
| `ReorderBuffer.Viewer.QueueInst` | gem5/util/o3-pipeview.py:159-164 | an arrival joins the queue and starts printing above max_threshold |
| `ReorderBuffer.Viewer.ProcessTrace` | gem5/util/o3-pipeview.py:128-150 | a whole trace leaves the queue empty and prints the filtered order |
| `Timeline.OneLineIffCompact` | gem5/util/o3-pipeview.py:237-242 | the one-line form is used if and only if the last event is less than a row after the fetch |
| `Timeline.ExactlyOneRow` | gem5/util/o3-pipeview.py:250-259 | a tick up to the last event is in exactly one row if it is not before the fetch's row, and in none otherwise |
| `Timeline.RowKeepsTicksApart` | gem5/util/o3-pipeview.py:250-262 | different ticks from the fetch on in one row have different places in it |
| `Timeline.RowWidthIff` | gem5/util/o3-pipeview.py:250-283 | a row is never narrower than width, and exactly that wide if and only if its drawn events are in distinct cycles |
| `Timeline.RowIsChart` | gem5/util/o3-pipeview.py:250-283 | then each cell is the letter of the stage at its cycle, or else a dot, which tells abandoned instructions |
| `Timeline.StageIsDrawn` | gem5/util/o3-pipeview.py:250-283 | a stage is drawn, in exactly one row, if and only if it was reached, not before the fetch's row, and is neither a store that is not asked for nor a dispatch at the tick of the issue |
| `Timeline.RowReads` | gem5/util/o3-pipeview.py:255-275 | any row without its dots reads the letters of exactly the stages drawn in it, each once, by place and then by name |
| `Timeline.NamesInOrder` | gem5/util/o3-pipeview.py:197-223 | the ranks that break ties order the stages as their names |
| `Timeline.LetterTellsStage` | gem5/util/o3-pipeview.py:197-223 | a letter is one of its stage's name, no dot, and tells the stage |
| `Timeline.LooksAtNothingIff` | gem5/util/o3-pipeview.py:263-267 | looking at the first event of the one-line form fails if and only if every tick is zero |
| `Timeline.PrintRow` | gem5/util/o3-pipeview.py:250-283 | the loops over stages and events give that row |
| `Timeline.PrintInst` | gem5/util/o3-pipeview.py:227-283 | the loop over rows gives all of them, or fails on an instruction without any tick |
| `UpgradeScheduler.RoundOfApplied` | gem5/util/cpt_upgrader.py:240-252 | a migration has a round if and only if it is applied |
| `UpgradeScheduler.ApplyRound` | gem5/util/cpt_upgrader.py:248-250 | a round in any order gives the same tags; it fails only if a downgrade finds its tag missing |
| `UpgradeScheduler.Process` | gem5/util/cpt_upgrader.py:238-258 | the rounds end with the tags and result that do not depend on any iteration order, and never with a missing tag |
| `UpgradeScheduler.ProcessFile` | gem5/util/cpt_upgrader.py:208-262 | for legacy, tagged and unversioned files: the right start tags, then the rounds; what the start tags of a legacy version mean is in LegacyUpgrades |
| `UpgradeScheduler.ReportIs` | gem5/util/cpt_upgrader.py:236-262 | a file is left alone if and only if it had no old version, has every upgrade and no downgrade; otherwise it is written with the final tags, or the run stops with upgrades left over |
| `UpgradeScheduler.EachAppliedOnce` | gem5/util/cpt_upgrader.py:241-252 | on success every needed migration is applied exactly once |
| `UpgradeScheduler.FinalTags` | gem5/util/cpt_upgrader.py:238-258 | the final tags are the start tags and all upgrade tags without the downgrade tags, and nothing is left to apply |
| `UpgradeScheduler.ScheduleIsAdmissible` | gem5/util/cpt_upgrader.py:140-154 | with upgraders only, all dependencies of a migration are present when it is applied |
| `UpgradeScheduler.UnappliedIffImpossible` | gem5/util/cpt_upgrader.py:240-246 | with upgraders only, a migration is reported as unappliable if and only if no admissible order contains it |
| `UpgradeScheduler.AbortsIffNoOrder` | gem5/util/cpt_upgrader.py:240-246 | with upgraders only, the run aborts if and only if no order of all needed upgrades satisfies the dependencies |
| `UpgradeScheduler.DependencyWaits` | gem5/util/cpt_upgrader.py:140-144 | a dependency that is missing at the start is applied in an earlier round |
| `UpgradeScheduler.DependentOfDowngrade` | gem5/util/cpt_upgrader.py:60-65 | a dependent of a tag with a downgrader is applied in no later round than the removal; within a round the order is open |
| `DowngradeOrder.RuleCanHoldIff` | gem5/util/cpt_upgrader.py:60-65 | some schedule of a successful run removes the tag before its dependent runs, as the header says, if and only if both are in one round |
| `DowngradeOrder.RuleHoldsIff` | gem5/util/cpt_upgrader.py:60-65 | every schedule keeps that rule if and only if no needed migration depends on a tag with a downgrader |
| `DowngradeOrder.EitherOrder` | gem5/util/cpt_upgrader.py:248-250 | two tags in one round for which the iteration order decides whether the rule is kept |
| `UpgradeScheduler.RemovedDependencyAborts` | gem5/util/cpt_upgrader.py:60-65 | and the run aborts if that tag is already gone |
| `UpgradeScheduler.LegacyInOrder` | gem5/util/cpt_upgrader.py:167-171 | from legacy version v the chained upgrades are applied in strictly increasing rounds |
| `LegacyUpgrades.LegacyDueIff` | gem5/util/cpt_upgrader.py:211-221 | a legacy upgrade is due for a checkpoint if and only if it is above its version |
| `LegacyUpgrades.LegacyAppliedInOrder` | gem5/util/cpt_upgrader.py:211-252 | of the legacy upgrades, a successful run from version v applies exactly v + 1 up to the last, each once and in this order, whatever the order within rounds |
| `UpgradeScheduler.WordsOfJoin` | gem5/util/cpt_upgrader.py:223-258 | tags without blanks survive being written and split |
| `UpgradeScheduler.SecondRunChangesNothing` | gem5/util/cpt_upgrader.py:223-258 | a second run on the written tags has nothing to apply |
| `UpgraderRegistry.Upgraders.constructor` | gem5/util/cpt_upgrader.py:89-93 | the registry starts empty |
| `UpgraderRegistry.Upgraders.Load` | gem5/util/cpt_upgrader.py:94-138 | a script is registered under its tag, role and legacy version, or refused without a method |
| `UpgraderRegistry.Upgraders.ChainLegacy` | gem5/util/cpt_upgrader.py:167-171 | every legacy version from 3 up to the first gap depends on the one before, and only those change |
| `UpgraderRegistry.Upgraders.ResolveAll` | gem5/util/cpt_upgrader.py:173-185 | after the audit every dependency names a known tag; an error names one that is not |
| `UpgraderRegistry.Upgraders.LoadAll` | gem5/util/cpt_upgrader.py:160-185 | all scripts loaded, chained and resolved, or the error that is explained by the scripts |
| `UpgraderRegistry.LoadedForScheduler` | gem5/util/cpt_upgrader.py:160-185 | with each tag used once, what was loaded meets what the scheduler's results assume |
| `PortBinder.ConnectionsOrdered` | gem5/configs/example/read_config.py:148-150 | comparison of connections is a total order |
| `Strings.StringsCompareIff` | gem5/configs/example/read_config.py:148-150 | names compare as in a dictionary |
| `PortBinder.PortsCompareIff` | gem5/configs/example/read_config.py:148-150 | ports go by owner, then name, then index |
| `PortBinder.ConnectionsCompareIff` | gem5/configs/example/read_config.py:148-150 | connections go by their first port, then their second |
| `PortBinder.SortCorrect` | gem5/configs/example/read_config.py:322-323 | sorting orders the connections and permutes |
| `PortBinder.BoundOnce` | gem5/configs/example/read_config.py:325-331 | no port is bound twice |
| `PortBinder.HalfIsOneEach` | gem5/configs/example/read_config.py:333-336 | half of the list was bound if and only if exactly one direction of every connection was |
| `PortBinder.BindingIsSound` | gem5/configs/example/read_config.py:290-344 | on success exactly one direction of every connection is made, each vector is bound in index order with none missing, each port once |
| `PortBinder.GreedyKeepsUp` | gem5/configs/example/read_config.py:321-331 | whatever choice of directions could be bound in order, the greedy pass binds each of its connections |
| `PortBinder.SucceedsIffOrderable` | gem5/configs/example/read_config.py:290-344 | the pass succeeds if and only if some choice of directions can be bound in the sorted order |
| `PortBinder.BindOne` | gem5/configs/example/read_config.py:324-331 | one connection is made if and only if both ends are next; looking up a vector nobody lists is told apart |
| `PortBinder.BindPorts` | gem5/configs/example/read_config.py:290-344 | the method makes exactly the greedy bindings, or raises for the order, or for an unknown port if and only if the pass reaches a connection whose first end is next and whose other vector nobody lists |
| `PortBinder.RaisesIffNotOrderable` | gem5/configs/example/read_config.py:333-336 | on a list in both directions it raises exactly when no choice of directions can be bound in the sorted order |
| `PortOrders.OrderableIsBindable` | gem5/configs/example/read_config.py:290-344 | what can be bound in one pass can be bound in some order |
| `PortOrders.BindableIffRepeated` | gem5/configs/example/read_config.py:290-344 | one direction of each connection can be bound in some order if and only if repeating the pass, over the list in any order, binds it |
| `PortOrders.RaisesRightlyIff` | gem5/configs/example/read_config.py:333-336 | the exception means that the bindings cannot be ordered if and only if more passes over the sorted list would not bind it either |
| `PortOrders.RaisesThoughBindable` | gem5/configs/example/read_config.py:333-336 | a list of three connections that can be ordered and for which it is raised |
| `PortOrders.EqualIndicesAreBound` | gem5/configs/example/read_config.py:290-344 | two vectors connected at equal indices are always bound, in whatever order the list is given |
| `PortBinder.CrossingPairCannotBeBound` | gem5/configs/example/read_config.py:311-313 | the claim that one direction is always bindable fails for a crossing pair, in any order |
| `CheckpointDriver.SkipTo` | gem5/configs/common/Simulation.py:236-240 | the loop that skips guest checkpoints ends where the function on values says, having asked the simulator for what it says |
| `CheckpointDriver.ScriptCheckpoints` | gem5/configs/common/Simulation.py:230-265 | against any simulator, the loops give the outcome, the ticks of the checkpoints and the calls to the simulator that the function of options and simulator says |
| `CheckpointOutcome.DriveIsPlayed` | gem5/configs/common/Simulation.py:230-265 | outcome and checkpoints of every run are what its calls, one after the other, do to the simulator, as far as they are answered |
| `CheckpointOutcome.OutcomeIff` | gem5/configs/common/Simulation.py:250-265 | the event returned is the answer to the last call; there is none if and only if that asks for a negative limit or has no answer |
| `CheckpointOutcome.GoesOnToMaxtick` | gem5/configs/common/Simulation.py:249-258 | with all checkpoints due within maxtick written, fewer than asked for and no guest checkpoint in the last interval, one more call asks for what is left to maxtick and its answer is returned |
| `CheckpointOutcome.LaterEventIsReturned` | gem5/configs/common/Simulation.py:249-265 | an instance: the event returned is the one after the last checkpoint, not the one at it |
| `CheckpointDriver.Spacing` | gem5/configs/common/Simulation.py:230-265 | every checkpoint of every run: a period after the one before, or when it is due if a guest checkpoint fell in its interval, plus draining; none due after maxtick but the first; after one with a guest checkpoint there is no other; at most max(1, max_checkpoints) |
| `CheckpointDriver.LateByDrains` | gem5/configs/common/Simulation.py:246-263 | without a guest checkpoint in its interval, checkpoint k is at when + k * period plus all drains so far |
| `CheckpointDriver.FullIff` | gem5/configs/common/Simulation.py:688-691 | with only guest checkpoints interrupting, all checkpoints asked for are written if and only if none falls in an interval before the last, and one in the last comes in time; never more are written |
| `CheckpointDriver.UndrainedFullIff` | gem5/configs/common/Simulation.py:688-691 | without draining times: if and only if no guest checkpoint falls in an interval before the last one due |
| `CheckpointDriver.GuestEndsSeries` | gem5/configs/common/Simulation.py:688-691 | a guest checkpoint right after the first one ends the series with the second, however many are due |
| `CheckpointDriver.TwoOfThree` | gem5/configs/common/Simulation.py:688-691 | an instance: three asked for, two written |
| `CheckpointDriver.DueTick` | gem5/configs/common/Simulation.py:246-258 | checkpoint k is due at when + k * period |
| `CheckpointDriver.OnScheduleIff` | gem5/configs/common/Simulation.py:230-265 | all are written exactly on schedule if and only if no drain takes time |
| `CheckpointDriver.NoneAfterMaxtick` | gem5/configs/common/Simulation.py:249-263 | then none is written after maxtick, provided the first is not due later |
| `Protolib.VarintShape` | gem5/util/protolib.py:146-158 | an encoding spells its number, and only its last byte lacks the continuation bit |
| `Protolib.VarintLength` | gem5/util/protolib.py:146-158 | its length is at most n if and only if the number has at most 7n bits |
| `Protolib.DecodeEncoding` | gem5/util/protolib.py:101-129 | decoding an encoding with anything behind it reads exactly the encoding, and fails above 70 bits |
| `Protolib.VarintRoundTrip` | gem5/util/protolib.py:101-158 | a number is read back if and only if it fits in 32 bits; below 2^63 the low 32 bits are, above them a negative number |
| `Protolib.MessagesRoundTripIff` | gem5/util/protolib.py:131-166 | a list of messages survives if and only if every one is non-empty and shorter than 2^32 bytes |
| `Protolib.DecodeVarint32` | gem5/util/protolib.py:101-129 | the loop gives the value or error of the specification and leaves the file just behind what it read |
| `Protolib.ReadMessage` | gem5/util/protolib.py:131-144 | reads one message or reports False, and where it leaves the file |
| `Protolib.ReadAll` | gem5/util/protolib.py:131-144 | reading until False gives the decoded list |
| `Protolib.EncodeVarint32` | gem5/util/protolib.py:146-158 | appends exactly the varint |
| `Protolib.WriteMessage` | gem5/util/protolib.py:160-166 | appends exactly the framed message |
| `Strings.DecimalDigits` | gem5/util/decode_inst_dep_trace.py:157-206 | a printed number is made of digits and reads as itself |
| `Strings.NumberOfDecimal` | gem5/util/encode_inst_dep_trace.py:155-157 | Python's int and long read a printed number as itself |
| `Strings.SpacesAre` | gem5/util/encode_inst_dep_trace.py:151-151 | the white space that strip removes |
| `Strings.NumberIff` | gem5/util/encode_inst_dep_trace.py:155-157 | a text reads as a number if and only if it is blanks, a sign, digits, an L for long, and blanks |
| `Strings.SplitJoin` | gem5/util/encode_inst_dep_trace.py:151-152 | splitting undoes joining pieces without the separator |
| `InstDepTrace.ParseLine` | gem5/util/encode_inst_dep_trace.py:150-197 | whatever the parser accepts is a record the format can carry, with its defaults written out |
| `InstDepTrace.AcceptedFields` | gem5/util/encode_inst_dep_trace.py:150-195 | where each field of an accepted line stands, and which are read with int instead of long |
| `InstDepTrace.DepsIff` | gem5/util/encode_inst_dep_trace.py:182-195 | dependencies are the numbers of the items that are not empty, in order |
| `InstDepTrace.LineRoundTripIff` | gem5/util/decode_inst_dep_trace.py:157-206 | printing a record and parsing it gives it back, defaults filled in, if and only if the format can carry it |
| `InstDepTrace.TraceRoundTripIff` | gem5/util/decode_inst_dep_trace.py:157-206 | the same for a whole trace, split into lines |
| `InstDepTrace.ReprintIsStable` | gem5/util/encode_inst_dep_trace.py:150-198 | whatever text is accepted, printing what was read and parsing again changes nothing |
| `InstDepTrace.PrintRecord` | gem5/util/decode_inst_dep_trace.py:160-206 | writing the fields one by one gives the line |
| `InstDepTrace.PrintTrace` | gem5/util/decode_inst_dep_trace.py:151-206 | the loop gives the text and the two counts it reports |
| `InstDepTrace.ParseDeps` | gem5/util/encode_inst_dep_trace.py:182-195 | the loop over dependencies skips empty items and stops at the first bad one |
| `InstDepTrace.ParseTrace` | gem5/util/encode_inst_dep_trace.py:150-198 | the records written before the first line that is refused, and why that one was |
| `CacheTree.NumTesters` | gem5/configs/example/memtest.py:118-129 | the closed form with multipliers counts the testers of the recursive tree |
| `CacheTree.CheckOptions` | gem5/configs/example/memtest.py:154-179 | accepts exactly the specifications of the checks |
| `CacheTree.MakePrototypes` | gem5/configs/example/memtest.py:181-216 | one prototype per cache level, scaled from the L1 cache by the products of the cache counts, alternating in inclusion |
| `CacheTree.SubSystemHas` | gem5/configs/example/memtest.py:248-299 | testers at every level, below the top an L1 cache for each and the caches that fan out, and a crossbar unless it is a single tester at the top |
| `CacheTree.TestersScale` | gem5/configs/example/memtest.py:252-260 | testers nearer to main memory inject less often and have less time to make progress |
| `CacheTree.CapacitiesAddUpIff` | gem5/configs/example/memtest.py:181-216 | every cache holds as much as the caches it fans out to together if and only if the cache counts read the same both ways, since sizes scale by them from the other end |
| `CacheTree.AddSubSystem` | gem5/configs/example/memtest.py:241-250 | a new subsystem gets the next index of its level; names stay distinct and consecutive |
| `CacheTree.Builder.MakeSubSystem` | gem5/configs/example/memtest.py:245-299 | the subsystem's testers and caches, with every indexing in range |
| `CacheTree.Builder.MakeCacheLevel` | gem5/configs/example/memtest.py:238-299 | a subtree adds to each level below the product of the cache counts between, and its testers |
| `CacheTree.MakeTree` | gem5/configs/example/memtest.py:118-302 | accepted options give every level exactly the product of the cache counts below it, numbered from zero, each once, and numtesters testers in all |
| `CheckpointMerge.FramesNeverOverlap` | gem5/util/checkpoint_aggregator.py:74-76 | relocated addresses of different checkpoints stay apart, in order and within the pages counted |
| `CheckpointMerge.ContentsLength` | gem5/util/checkpoint_aggregator.py:97-112 | the copied bytes fill the pages counted if and only if no store is short |
| `CheckpointMerge.SameByte` | gem5/util/checkpoint_aggregator.py:61-115 | a relocated address holds the byte the checkpoint held, if no earlier store is short |
| `CheckpointMerge.RangeSizeIff` | gem5/util/checkpoint_aggregator.py:121-134 | the recorded range_size is the length of the merged memory if and only if no store is short |
| `CheckpointMerge.RangeSizeIsLeast` | gem5/util/checkpoint_aggregator.py:121-134 | it is the least whole number of pages holding all pages and the memory size asked for |
| `CheckpointMerge.Aggregate` | gem5/util/checkpoint_aggregator.py:44-137 | the loops give that memory, the page count, the size and the latest tick |
| `CheckpointMerge.CopyStore` | gem5/util/checkpoint_aggregator.py:102-112 | reading page by page copies the declared pages, or what there is |
| `CheckpointMerge.HasCpuIff` | gem5/util/checkpoint_aggregator.py:66-68 | a section is renamed if and only if its name has "cpu" in it somewhere |
| `CheckpointMerge.SectionNamesDiffer` | gem5/util/checkpoint_aggregator.py:59-70 | processor sections of different checkpoints, and different sections of one, never get the same name |
| `CopyrightYears.MatchRangeIff` | gem5/util/find_copyrights.py:98-105 | an item is read as a range if and only if it starts with four digits, a hyphen with blanks around it and four digits |
| `CopyrightYears.RunsOfSet` | gem5/util/find_copyrights.py:175-197 | the printed ranges hold exactly the years of the set, increase, are disjoint and cannot be joined |
| `CopyrightYears.DatesRoundTripIff` | gem5/util/find_copyrights.py:98-199 | printing and reading gives the set back if and only if every two adjacent years have four digits |
| `CopyrightYears.ProcessDates` | gem5/util/find_copyrights.py:99-116 | the loops read the years of every item and pass over what is none |
| `CopyrightYears.FindRuns` | gem5/util/find_copyrights.py:186-197 | popping years off the sorted list gives its runs |
| `CopyrightYears.DateStr` | gem5/util/find_copyrights.py:175-199 | prints the ranges of the sorted years |

## Left out

- Packets of several flits: a packet is one flit, as in the control networks; wormholes are not modelled.
- Link, credit and pipeline latencies, and the arbitration order: a step happens in any order in which its buffer is free.
- Network interfaces: a packet at its destination can always be delivered.
- SWAP's time slots, and that the downstream router's pointer must be valid too: `Swap` shows runs whose swaps start from base channels only, `SwapPointer` has the pointer of one router, and `SwapOffers` says which packets its scan offers for such swaps.
- Routing by direction, and swaps, on Mesh_westfirst.py: its links name no directions, so looking one up gives output 0. What is stated of them is for meshes whose links are named, as those of Mesh_XY.py.
- SWAP with `is_swap` set, `bail_out` and swaps into local ports.
- The latency and inter-switch matrices carried along by the shortest-path computation: they do not influence routing.
- Controllers are numbered consecutively and there is at least one of them; an irregular numbering is not modelled.
- Custom routing, and the deadlock freedom of the other mesh scripts, whose weights do not separate the dimensions.
- Swap.SwapLeavesNoDeadEnd: states that delivery stays possible, not that the pointer's schedule delivers: a router on its turn swaps whether or not that helps, and may stay in another channel (`StaysInHigherIff`).
- The viewer's early stop, whose call omits an argument, its colours and the text beside the rows.
- The bodies of upgraders, the files they change and backups; a tag or dependency of the wrong type.
- UpgraderRegistry.LoadedForScheduler: assumes that no two scripts use one tag, because the source lets the later one replace the earlier.
- Parsing of configuration and port names, and the objects that are connected.
- The simulator itself: its exits and draining times are parameters. Ticks do not wrap around.
- Serialisation of messages: a message is its bytes. Compression and files are sequences.
- The header messages and magic numbers of traces.
- Options that choose a random cache tree, and the wiring of ports.
- Copying of configuration sections other than their names when checkpoints are merged.
- Finding copyright blocks and owners in source files.
- The rest of gem5: simulation models, instruction sets, coherence protocols and the build system.
