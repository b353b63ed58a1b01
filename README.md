# tinyagents execution core in Dafny

This project models how tinyagents runs a flow of nodes. A *node* is either a
leaf built from a user object (its `run`, `prepare_input` and `output_handler`
in the NodeMeta template) or one of the four composites:

- `Parallel` fans one input out to named sub-nodes and gathers a name -> output
  mapping;
- `ConditionalBranch` routes the input to exactly one named branch;
- `Recursive` alternates two nodes for a bounded number of rounds and stops
  early on a terminal output;
- `SubGraph` walks a graph's node list as a single node.

A `Graph` is an ordered node list. Its `GraphRunner` walks the list: it
unwraps the last output, invokes the next node, stops at the first terminal
output (`is_final`), and frames the walk with `flow_start` and `flow_end`
calls on the callback. The older single-file versions of these classes
(`tinyagents/nodes.py`: NodeMeta, Parralel, ConditionalBranch, Recursive) are
modelled as well, in module `Legacy`, and are compared with the current ones.

## How the model is organised

- `Dicts` models insertion-ordered Python dicts keyed by names. `Text` models
  `sep.join`, `str.strip` and `s[:-3]`.
- `Values` defines the values a flow passes on:
  - the `NodeOutput` wrapper (`Output(content, isFinal)`);
  - `get_content` and `check_for_break`;
  - the errors a flow can raise;
  - the callback events.
- `Nodes` holds the node datatype and `Invoke`, which is the specification of
  every `invoke`/`ainvoke`:
  - `Invoke(env, n, x, cb, rid, mode)` returns a `Run`: the callback events in
    order, and the value returned or the error raised;
  - `mode` picks `invoke` (Sync) or `ainvoke` (Async);
  - `cb` says whether a callback is passed, and `rid` is the `run_id` keyword
    argument.
- `Parallels`, `Branches`, `Recursives`, `SubGraphs` and `Graphs` hold the
  classes whose fields the source updates in place (names, node dicts,
  routers, the shared `_state` list, the compiled flag). Each object's
  `Invoke` method, where it has one, is a loop proved equal to `Nodes.Invoke`
  on the node it currently stands for (`AsNode()`).
- `NodeFacts`, `GraphFacts` and `Scenarios` prove what the source promises:
  - callbacks only observe;
  - the leaf template;
  - fan-out and fan-in, with the first failure winning;
  - branch dispatch;
  - the walk's order and early stop;
  - the framing of a flow;
  - `str(graph)`;
  - the two end-to-end scenarios.
- `Recursives` proves the loop against `Alternate`, an independent reference
  that has no rounds and no bound.

Where the behaviour differs from what one might expect, the model follows the code:

- An empty graph does not return its input unchanged. `GraphRunner` returns
  `x.content`, which raises unless the input is a NodeOutput
  (`GraphFacts.EmptyFlow`).
- `Recursive` runs `max_iter + 1` rounds, not `max_iter`: `while n <=
  max_iter` starts from 0 (`Recursives.RecursiveRunsAllRounds`). It returns
  the last output itself, not its content.
- `Recursive(Increment, Stopper, max_iter=3)` from 0 stops in its third round,
  at Stopper (node2, the round's last sub-invocation), with 3: Increment never
  returns a terminal output (`Scenarios.IncrementUntilThree`). The unit test of
  this shape expects 4; the code gives 3.
- The `node_finish` call of a ConditionalBranch carries the chosen branch's
  output, not the route (`NodeFacts.BranchDispatch`).
- A sync Parallel passes its children `x` and the keyword arguments but not
  the callback. Only an async Parallel passes the callback on
  (`NodeFacts.ParallelFanOutFanIn`).
- An async Parallel awaits its children in insertion order and raises at the
  first failing one. Later children are never awaited and so never run.
- A flow whose last node is a Parallel does not return the mapping. `.content`
  on a dict raises (`GraphFacts.FlowEndingInParallelFails`).
- Callback calls are not isolated from the flow. Nothing catches an error a
  callback raises; in the model a callback only records.

The current `Recursive.ainvoke` passes the builtin `input` (not the unwrapped
value) to `node_start` (`tinyagents/nodes/recursive.py:53`). The model
reproduces this: in mode Async the start event of each sub-invocation carries
`Builtin("input")`.

Assumptions the source does not settle:

- A NodeOutput object is truthy, since it defines neither `__bool__` nor
  `__len__`. It is also hashable, so a route that is a NodeOutput raises the
  routing error.
- `get_content` of a mapping and `check_for_break` of anything that is not a
  NodeOutput live in `tinyagents/utils`, which is not part of this model. They
  are the two parameters in `Values.Env`.

## Model

| member | source | states |
|---|---|---|
| `Dicts.Put` | tinyagents/nodes/parallel.py:32-34 | `d[k] = v`: an existing key keeps its position and takes the new value, a new key is added last; every other key keeps its value; distinct keys stay distinct |
| `Dicts.FromPairs` | tinyagents/nodes/parallel.py:16-17 | the dict comprehension always yields pairwise distinct keys |
| `Dicts.FromPairsKeys` | tinyagents/nodes/parallel.py:17 | the comprehension's keys are exactly the names that occur among the nodes |
| `Dicts.FromPairsLast` | tinyagents/nodes/conditional_branch.py:15-17 | a name occurring several times maps to its LAST node |
| `Dicts.FromPairsDistinct` | tinyagents/nodes/conditional_branch.py:14-17 | with pairwise distinct names the dict holds exactly the given pairs, in the given order |
| `Text.StripPadded` | tinyagents/graph.py:37 | `.strip()` removes the leading space the rendering adds and nothing of a string without surrounding white space |
| `Nodes.Route` | tinyagents/nodes/conditional_branch.py:64-69 | `_get_route`: without a router the input itself is the route; with one, the router's answer on the input |
| `Nodes.Select` | tinyagents/nodes/conditional_branch.py:71-75 | a branch is found exactly when the route is a string naming one, at the position holding that name; a dict route raises as unhashable; any other route raises the routing error carrying the route and the available keys |
| `Nodes.Invoke` | tinyagents/nodes/node_meta.py:46-54 | a node invoked without a callback reports nothing, whatever its kind |
| `Nodes.FanIn` | tinyagents/nodes/parallel.py:45-48 | without a callback Parallel's collecting loop reports nothing |
| `Nodes.Loop` | tinyagents/nodes/recursive.py:30-42 | without a callback the Recursive loop reports nothing |
| `Nodes.Step` | tinyagents/nodes/recursive.py:32-36 | without a callback a Recursive sub-invocation reports nothing |
| `Nodes.Walk` | tinyagents/nodes/subgraph.py:22-29 | without a callback the sequential walk reports nothing |
| `Nodes.ParallelName` | tinyagents/nodes/parallel.py:23-26 | an explicit name is kept as given; without one the name starts with `parallel_` |
| `Nodes.BranchName` | tinyagents/nodes/conditional_branch.py:21-24 | an explicit name is kept as given; only a missing one (`name == None`) gets the default starting with `conditional_branch_` |
| `Nodes.Repr` | tinyagents/nodes/parallel.py:28-30 | `repr` of a leaf is its name; of a Parallel, ConditionalBranch, Recursive or SubGraph, the kind followed by its parts in parentheses (`Parallel(`, `ConditionalBranch(`, `Recursive(`, `SubGraph(` ... `)`) |
| `Nodes.MakeRecursive` | tinyagents/nodes/recursive.py:14-22 | a Recursive keeps both nodes and `max_iter`, keeps an explicit name, and is otherwise named `recursive_<node1>_<node2>` |
| `NodeFacts.InvokeResultIndependent` | tinyagents/nodes/node_meta.py:56-64 | for every kind of node, `ainvoke` returns or raises what `invoke` does, and neither depends on the callback or the run id: callbacks only observe |
| `NodeFacts.FanInResultIndependent` | tinyagents/nodes/parallel.py:52-69 | Parallel's collected result does not depend on the callback, the run id or the mode |
| `NodeFacts.LoopResultIndependent` | tinyagents/nodes/recursive.py:46-66 | the Recursive loop's result does not depend on the callback, the run id or the mode |
| `NodeFacts.StepResultIndependent` | tinyagents/nodes/recursive.py:50-58 | a sub-invocation's result does not depend on the callback, the run id or the mode |
| `NodeFacts.WalkResultIndependent` | tinyagents/nodes/subgraph.py:31-41 | the walk's result does not depend on the callback, the run id or the mode |
| `NodeFacts.LeafTemplate` | tinyagents/nodes/node_meta.py:46-54 | a leaf reports its start with the raw input, runs on the unwrapped input, wraps the raw result with the handler's terminal flag and reports its finish with that output; without `run` it raises NotImplementedError after the start event |
| `NodeFacts.TracedLeaf` | tinyagents/tracing.py:61-65 | as written, a leaf behind the `@trace_node` wrapper reports nothing, whatever callback it is given, and returns what the template returns |
| `NodeFacts.TraceNodeDropsCallback` | tinyagents/nodes/node_meta.py:46-54 | with a callback the template reports the leaf's start (and its finish when `run` is implemented), while the wrapped leaf reports nothing |
| `NodeFacts.DefaultLeafNeverFinal` | tinyagents/nodes/node_meta.py:40-41 | the default output handler wraps the raw result as non-terminal, so such a leaf never stops a flow |
| `NodeFacts.BranchDispatch` | tinyagents/nodes/conditional_branch.py:40-47 | exactly the branch the route names runs, on the original input; its result is returned unchanged between the branch's own start and finish events; an unknown or unhashable route raises after the start event and before any branch runs |
| `NodeFacts.FanInAllSucceed` | tinyagents/nodes/parallel.py:45-48 | when every child succeeds, collecting from position i appends each child's output under its name, in insertion order, with each child's events followed by its finish event |
| `NodeFacts.GatheredSync` | tinyagents/nodes/parallel.py:36-50 | in sync mode the collecting loop reports only the Parallel's own finish events, in key order |
| `NodeFacts.ParallelFanOutFanIn` | tinyagents/nodes/parallel.py:36-50 | when every child succeeds, Parallel returns a mapping with exactly its keys, in order, each with that child's output on the same input; all starts come first, then each child's events (async only) and its finish |
| `NodeFacts.FanInFirstFailure` | tinyagents/nodes/parallel.py:45-46 | the collecting loop raises the error of the first failing child after position i |
| `NodeFacts.ParallelFirstFailure` | tinyagents/nodes/parallel.py:64-67 | a Parallel with a failing child raises the error of the first failing child in insertion order |
| `NodeFacts.WalkSplit` | tinyagents/graph.py:61-67 | once the walk over a prefix has stopped, the nodes after it are never invoked; otherwise the walk continues with them from the prefix's last output |
| `NodeFacts.WalkOne` | tinyagents/nodes/subgraph.py:23-28 | walking one node is invoking it on the unwrapped input |
| `NodeFacts.KeyedByName` | tinyagents/nodes/conditional_branch.py:14-17 | the nodes keyed by name have exactly the nodes' names as keys, each mapped to the last node carrying it |
| `NodeFacts.DefaultNamesCollide` | tinyagents/nodes/parallel.py:23-24 | default names are not unique: a Parallel over `a_b` and one over `a` and `b` get the same name, and likewise for branches with `-` |
| `Graphs.RunFlow` | tinyagents/graph.py:55-71 | without a callback a flow reports nothing; with one, `flow_start` with the run id and the input comes first; the flow returns only when no node raised |
| `Graphs.NodeList.constructor` | tinyagents/graph.py:19-20 | a new graph's list is empty |
| `Graphs.NodeList.Append` | tinyagents/graph.py:33-34 | appending adds the node at the end of the shared list |
| `Graphs.Graph.constructor` | tinyagents/graph.py:15-20 | a new graph owns a fresh empty list and is not compiled |
| `Graphs.Graph.Next` | tinyagents/graph.py:33-34 | `next` appends the node at the end |
| `Graphs.Graph.Or` | tinyagents/graph.py:39-41 | the `or` operator on a graph appends the node and returns the same graph |
| `Graphs.Graph.Compile` | tinyagents/graph.py:22-31 | without Ray, a fresh runner over the same list object and callback; with Ray, the first call succeeds and marks the graph compiled, and every later call raises |
| `Graphs.Graph.Str` | tinyagents/graph.py:36-37 | `str` of an empty graph is the empty string |
| `Graphs.GraphRunner.constructor` | tinyagents/graph.py:46-49 | the runner keeps the list object and the callback it is given |
| `Graphs.GraphRunner.Invoke` | tinyagents/graph.py:55-71 | the loop over the nodes produces exactly the flow `RunFlow` specifies: the walk framed by `flow_start`/`flow_end`, returning the content of the last output |
| `Graphs.Chain` | tinyagents/nodes/node_meta.py:28-32 | the `or` operator on two nodes is a new graph holding a then b |
| `Graphs.AsGraph` | tinyagents/nodes/node_meta.py:72-75 | `as_graph` is a new graph holding the node alone |
| `GraphFacts.FlowFraming` | tinyagents/graph.py:55-71 | with a callback, `flow_start` comes first and once; `flow_end` comes last, once, only when no node raised, and carries the last output; in between come exactly the node calls of the walk; without a callback nothing is reported; the flow returns the last output's content, raising when there is none |
| `GraphFacts.FlowStopsAtTerminal` | tinyagents/graph.py:61-67 | nodes after the first terminal output or error are never invoked: appending nodes to such a graph changes nothing in its flow |
| `GraphFacts.FlowAppend` | tinyagents/graph.py:61-64 | nodes run in list order: the next node receives the unwrapped content of the last output, and its calls follow those of the earlier nodes |
| `GraphFacts.EmptyFlow` | tinyagents/graph.py:69-71 | an empty graph reports only the two flow calls and returns the input's content, raising unless the input is a NodeOutput |
| `GraphFacts.FlowEndingInParallelFails` | tinyagents/graph.py:71 | a flow whose last node is a Parallel that returns raises at `.content` |
| `GraphFacts.FanInMapping` | tinyagents/nodes/parallel.py:36-50 | what a Parallel returns, when it returns, is a mapping |
| `GraphFacts.FlowResultIndependent` | tinyagents/graph.py:73-93 | the runner's `ainvoke` returns what `invoke` returns, with or without a callback |
| `GraphFacts.PiecesJoin` | tinyagents/graph.py:37 | the `" {r} ->"` pieces concatenated are the reprs joined by `" -> "` between a leading space and a trailing `" ->"` |
| `GraphFacts.RenderJoinsReprs` | tinyagents/graph.py:36-37 | `str(graph)` is the reprs joined by `" -> "` when the first and last reprs have no surrounding white space, and `""` for an empty graph |
| `GraphFacts.CompositeReprTrimmed` | tinyagents/nodes/parallel.py:28-30 | the repr of every composite node has no surrounding white space |
| `GraphFacts.GraphStr` | tinyagents/graph.py:36-37 | `str(graph)` of a graph object whose reprs are trimmed is its node reprs joined by `" -> "` |
| `GraphFacts.CompileSharesList` | tinyagents/graph.py:22-24 | one call sequence (`a.as_graph()`, `compile()`, `next(b)`): a node appended after a Ray-less `compile` is walked too. The general fact, that the runner holds the graph's own list object, is the ensures of `Graphs.Graph.Compile` |
| `GraphFacts.CompileTwice` | tinyagents/graph.py:26-30 | `compile(use_ray=True)` succeeds once and raises the second time |
| `SubGraphs.SubGraph.constructor` | tinyagents/nodes/subgraph.py:14-16 | a SubGraph keeps its name and shares the graph's list object |
| `SubGraphs.SubGraph.SetName` | tinyagents/nodes/node_meta.py:34-35 | `set_name` replaces the name |
| `SubGraphs.SubGraph.Invoke` | tinyagents/nodes/subgraph.py:22-41 | the loop over the shared list returns and reports exactly what the SubGraph node's specification does, in either mode |
| `SubGraphs.SubGraphSeesLaterNodes` | tinyagents/nodes/subgraph.py:16 | one call sequence (`a.as_graph()`, `SubGraph(...)`, `next(b)`): a node appended to the graph after the SubGraph was built is walked by it. The general fact, that the SubGraph holds the graph's own list object, is the ensures of `SubGraphs.SubGraph.constructor` |
| `SubGraphs.EmptySubGraph` | tinyagents/nodes/subgraph.py:22-29 | an empty SubGraph returns its input unchanged and reports nothing |
| `SubGraphs.SubGraphOfOne` | tinyagents/nodes/subgraph.py:23-28 | a SubGraph reports nothing of its own: over one node it is that node's invocation on the unwrapped input |
| `SubGraphs.SubGraphVersusRunner` | tinyagents/graph.py:61-71 | a SubGraph returns the last output where a runner over the same nodes returns its content, and both report the same node calls |
| `Parallels.Parallel.constructor` | tinyagents/nodes/parallel.py:15-26 | a missing or empty `nodes` dict is replaced by the arguments keyed by name; the name is the given one or the default from the keys; the pool size is stored |
| `Parallels.Parallel.SetName` | tinyagents/nodes/node_meta.py:34-35 | `set_name` replaces the name and nothing else |
| `Parallels.Parallel.And` | tinyagents/nodes/parallel.py:32-34 | `p & node` inserts or replaces the entry under the node's name, keeps the name and returns the same object |
| `Parallels.Parallel.SetMaxWorkers` | tinyagents/nodes/parallel.py:71-72 | as written, `set_max_workers` stores an attribute and leaves the pool size unchanged |
| `Parallels.Parallel.SetPoolSize` | tinyagents/nodes/parallel.py:71-72 | as intended, setting the maximum number of workers sets the pool size the executor uses |
| `Parallels.Parallel.Invoke` | tinyagents/nodes/parallel.py:36-69 | the two loops (report every start, then collect in insertion order) return and report exactly what the Parallel node's specification does |
| `Parallels.Fork` | tinyagents/nodes/node_meta.py:24-26 | `a & b` on a node is a new Parallel over the two, keyed by name, with the default name and no pool size |
| `Parallels.MaxWorkersIgnored` | tinyagents/nodes/parallel.py:71-72 | one call sequence (build a Parallel, then `set_max_workers(m)`): the pool size is still the one given at construction. The general fact is the ensures of `Parallels.Parallel.SetMaxWorkers` |
| `Parallels.PoolSizeSet` | tinyagents/nodes/parallel.py:40 | one call sequence (build a Parallel, then the intended setter): the executor's pool size is the one set. The general fact is the ensures of `Parallels.Parallel.SetPoolSize` |
| `Parallels.DuplicateNameReplaces` | tinyagents/nodes/parallel.py:17 | two nodes with the same name leave one child: the later node |
| `Branches.ConditionalBranch.constructor` | tinyagents/nodes/conditional_branch.py:13-26 | a missing or empty `branches` dict is replaced by the arguments keyed by name; the name is the given one or the default from the keys; the router is stored |
| `Branches.ConditionalBranch.SetName` | tinyagents/nodes/node_meta.py:34-35 | `set_name` replaces the name and nothing else |
| `Branches.ConditionalBranch.Div` | tinyagents/nodes/conditional_branch.py:32-34 | `branch / node` inserts or replaces the branch under the node's name, keeps name and router, and returns the same object |
| `Branches.ConditionalBranch.BindRouter` | tinyagents/nodes/conditional_branch.py:36-38 | `bind_router` sets the router, changes nothing else and returns the same object |
| `Branches.Choice` | tinyagents/nodes/node_meta.py:20-22 | `a / b` on a node is a new ConditionalBranch over the two, keyed by name, with the default name and no router |
| `Recursives.Recursive.constructor` | tinyagents/nodes/recursive.py:14-22 | the object stands for the Recursive node over the two nodes, with `max_iter` and the given or default name |
| `Recursives.Recursive.SetName` | tinyagents/nodes/node_meta.py:34-35 | `set_name` replaces the name |
| `Recursives.Recursive.SubInvoke` | tinyagents/nodes/recursive.py:32-36 | one pass of the inner loop body is exactly one sub-invocation of the specification |
| `Recursives.Recursive.Round` | tinyagents/nodes/recursive.py:31-41 | one pass of the inner `for`: an error or a truthy terminal output ends the whole loop; otherwise the loop goes on from the last output with one round fewer; a break output is what is returned |
| `Recursives.Recursive.Invoke` | tinyagents/nodes/recursive.py:27-44 | the `while not response and n <= max_iter` loop returns and reports exactly what the Recursive node's specification does, in either mode |
| `Recursives.LoopRunsAll` | tinyagents/nodes/recursive.py:30-42 | with no terminal output, the loop over k rounds makes all its sub-invocations in strict alternation, each on the previous output |
| `Recursives.LoopStopsAt` | tinyagents/nodes/recursive.py:38-41 | the loop ends at the first sub-invocation that raises or gives a truthy terminal output, even mid-round, and returns what that one returned |
| `Recursives.RecursiveRunsAllRounds` | tinyagents/nodes/recursive.py:27-44 | with no terminal output a Recursive makes `2 * (max_iter + 1)` sub-invocations alternating node1 and node2 and returns node2's last output; a negative `max_iter` returns the input untouched |
| `Recursives.RecursiveStopsEarly` | tinyagents/nodes/recursive.py:38-42 | the first sub-invocation that ends the loop ends the Recursive: nothing after it runs |
| `Scenarios.IncrementThenDouble` | tinyagents/graph.py:55-71 | the graph [Increment, Double] on 3 returns 8, with `flow_start`/`flow_end` once each and one start and one finish per node, in order |
| `Scenarios.CounterReachesThree` | tinyagents/nodes/recursive.py:30-41 | from any value below 3 with enough rounds left, Increment/Stopper counts up to 3 and stops with a terminal output |
| `Scenarios.IncrementUntilThree` | test/test_recursive.py:27-29 | `Recursive(Increment, Stopper, max_iter=3)` from 0 returns the terminal output holding 3 |
| `Legacy.LegacyBranchName` | tinyagents/nodes.py:158-168 | a legacy branch's name is its repr: `ConditionalBranch(` ... `)` |
| `Legacy.LegacyParallelName` | tinyagents/nodes.py:98-99 | the legacy Parralel gets a name exactly when the name passed is missing or empty (`if not name`), and that name is `parallel_` followed by the keys joined by `_` |
| `Legacy.LName` | tinyagents/nodes.py:98-99 | reading `.name` raises exactly for a legacy Parralel that was never given one; a legacy branch's name is its repr |
| `Legacy.LegacyBranch.Name` | tinyagents/nodes.py:166-168 | the `name` property is the repr over the branch's current keys |
| `Legacy.LInvoke` | tinyagents/nodes.py:55-62 | a legacy node invoked without a callback reports nothing |
| `Legacy.LFanIn` | tinyagents/nodes.py:117-120 | without a callback the legacy collecting loop reports nothing |
| `Legacy.LLoop` | tinyagents/nodes.py:229-242 | without a callback the legacy Recursive loop reports nothing |
| `Legacy.LStep` | tinyagents/nodes.py:231-235 | without a callback a legacy sub-invocation reports nothing |
| `Legacy.LegacyParallel.constructor` | tinyagents/nodes.py:90-99 | the dict and pool size are stored; the default name is assigned only when the name passed is missing or empty, and a non-empty name is not stored |
| `Legacy.LegacyParallel.And` | tinyagents/nodes.py:105-107 | `p & node` stores the node under its name and returns the same object, or raises when the node has no name |
| `Legacy.LegacyBranch.constructor` | tinyagents/nodes.py:148-156 | the branches and the router are stored |
| `Legacy.LegacyBranch.Div` | tinyagents/nodes.py:162-164 | `branch / node` stores the node under its name and returns the same object, or raises when the node has no name |
| `Legacy.LegacyBranch.BindRouter` | tinyagents/nodes.py:170-172 | `bind_router` sets the router and returns the same object |
| `Legacy.Pipe` | tinyagents/nodes.py:28-37 | the legacy `or` operator with a graph on the right appends `a` to the END of that graph and returns it; with a node on the right it is a new graph `[a, node]` |
| `Legacy.DefaultRunReturnsNone` | tinyagents/nodes.py:43-45 | the legacy default `run` returns None, which the handler wraps; the current one raises NotImplementedError |
| `Legacy.BranchDispatchQuiet` | tinyagents/nodes.py:174-182 | a legacy branch reports only its own start and finish, under its repr; the chosen branch runs on the raw input without the callback; an unknown route raises after the start |
| `Legacy.BranchNameAppends` | tinyagents/nodes.py:158-160 | adding a key appends the separator and the key inside the parentheses of the legacy branch's name |
| `Legacy.DivRenames` | tinyagents/nodes.py:162-168 | `/` with a node under a new name renames the legacy branch |
| `Legacy.ParallelReportsOnlyItself` | tinyagents/nodes.py:109-122 | every event a legacy Parralel reports names one of its own keys, and with a callback its starts come first, in key order |
| `Legacy.LFanInCollects` | tinyagents/nodes.py:117-120 | when the legacy collecting loop returns, it returns a mapping with exactly the keys, each with that child's output on the raw input |
| `Legacy.ParallelCollects` | tinyagents/nodes.py:109-122 | when a legacy Parralel returns, it returns its children's outputs keyed by name, in order |
| `Legacy.LFanInAllSucceed` | tinyagents/nodes.py:117-120 | when every remaining child returns, the legacy collecting loop returns and reports the finishes in key order |
| `Legacy.LFanInAllReturns` | tinyagents/nodes.py:117-120 | when every remaining child returns, the legacy collecting loop returns, whatever it has collected so far |
| `Legacy.LFanInAllFinishes` | tinyagents/nodes.py:117-120 | when every remaining child returns, the legacy collecting loop reports one `node_finish` per child in key order with a callback, and nothing without one |
| `Legacy.ParallelAllSucceed` | tinyagents/nodes.py:109-122 | when every child returns, a legacy Parralel returns the mapping of their outputs on the raw input, keyed by name in order, and with a callback reports all starts in key order and then all finishes in key order |
| `Legacy.LFanInFirstFailure` | tinyagents/nodes.py:117-120 | the legacy collecting loop raises the error of the first failing child, having reported the finishes of the children before it |
| `Legacy.ParallelFirstFailure` | tinyagents/nodes.py:109-122 | a legacy Parralel raises the error of its first failing child in key order, after all starts and the finishes of the children before it |
| `Legacy.ExplicitParallelNameLost` | tinyagents/nodes.py:98-99 | as written, a Parralel given a non-empty name has no name at all, and a Recursive over it raises when it reports its first start |
| `Legacy.RecursiveAinvokeUnbound` | tinyagents/nodes.py:246-248 | as written, the legacy `Recursive.ainvoke` raises on every input, before reporting anything |
| `Legacy.StepAgrees` | tinyagents/nodes.py:230-235 | on a plain value, a legacy sub-invocation (raw value to the node) returns what a current one (unwrapped value) returns, and its output is plain again |
| `Legacy.LoopAgrees` | tinyagents/nodes.py:229-242 | over plain leaves the legacy loop returns what the current loop returns, round by round |
| `Legacy.RecursiveAgrees` | tinyagents/nodes.py:226-244 | over two plain leaves the legacy Recursive returns what the current Recursive returns |

## Left out

- Ray is not part of this model:
  - the `remote` branches of every `ainvoke`;
  - `GraphDeployment` and the deployment utilities;
  - `ray_options`;
  - everything `compile(use_ray=True)` does beyond the once-only flag.
- Tracing spans are not part of this model: the spans `trace_flow` and
  `trace_node` open, binding a tracer to the nodes in `GraphRunner.__init__`,
  `_init_tracer`, `_get_meta`. What `trace_node` does to the arguments is
  modelled (`NodeFacts.TracedLeaf`).
- Nodes.Invoke, NodeFacts.LeafTemplate, Scenarios.IncrementThenDouble: a leaf
  here reports `node_start` and `node_finish` as the NodeMeta template
  (`tinyagents/nodes/node_meta.py:46-64`) says. In the program as written
  these leaf events do not occur: `@trace_node` hands the template only `x`,
  dropping the callback and the run id (see Findings). The composites'
  events are unaffected.
- Composite objects enter a flow as snapshots (`AsNode()`), where Python
  shares the object. After a Parallel, ConditionalBranch, Recursive or
  SubGraph is put into a graph or another composite, changing it with `&`,
  `/`, `bind_router`, `set_name` or `Graph.next` on its graph does not reach
  the enclosing flow in the model, while in the source it does. Only a
  SubGraph object invoked directly sees later nodes
  (`SubGraphs.SubGraphSeesLaterNodes`).
- Concurrency is not modelled:
  - The thread pool and the event loop are left out, and children run one
    after the other in insertion order. Keys, values, events and the first
    error are the same under any schedule, because sync children get no
    callback and async children are awaited in order.
  - A sync Parallel still runs the children after a failing one. Since they
    report nothing, the model does not run them.
  - `_async_run` is left out: `run` and the output handler are plain
    functions.
- `create_run_id` is a parameter (`flowId`); the clock and randomness behind it
  are left out.
- `get_content` of a mapping and `check_for_break` of a non-NodeOutput are the
  parameters in `Values.Env`. `tinyagents/utils`, `tinyagents/handlers` and
  `tinyagents/types` are not part of this model.
- A user `run` that raises is not modelled. The errors a flow can raise are the
  ones the core itself raises: NotImplementedError, the routing error, an
  unhashable route, `.content` on a non-NodeOutput, a missing name, compiling
  twice, and an unbound local.
- Values are limited to None, integers, strings, NodeOutputs, name -> output
  mappings and builtins; floats and arbitrary user objects are left out.
- Callback objects only record calls. What `StdoutCallback` prints, and a
  callback that raises, are left out.
- `chainable` and its options are left out, except that a leaf's repr is its
  name (`tinyagents/decorators.py:29-30`).
- The legacy `Parralel` and `ConditionalBranch` are modelled only when built
  from a dict. Their positional-argument constructors, and the legacy `&` and
  `/` on a leaf that use them, key nodes by a name that may be Python None or
  may raise, and are left out.
- The legacy `set_name`, `as_graph` and Parralel repr are the same as the
  current ones (`SetName`, `Graphs.AsGraph`, `Nodes.Repr`) and have no separate
  member.
- Legacy.LegacyParallel.And: requires that the node's name is not Python None,
  because a None key is not modelled.
- Legacy.LegacyBranch.Div: requires that the node's name is not Python None,
  for the same reason.
- Recursives.RecursiveRunsAllRounds, Recursives.RecursiveStopsEarly: neither covers a
  sub-invocation whose output is terminal but falsy. The only such output is the
  empty mapping of an empty Parallel, on which the loop leaves the round and goes
  on to the next. `Nodes.Loop` models that path, and only its definition states it.
- Nodes.Invoke, Nodes.FanIn, Nodes.Loop, Nodes.Step, Nodes.Walk: their own
  ensures state only that nothing is reported without a callback. What each
  returns and reports is stated by the lemmas in `NodeFacts`, `GraphFacts` and
  `Recursives` and by the object methods proved equal to them.
- Legacy.LInvoke, Legacy.LFanIn, Legacy.LLoop, Legacy.LStep: the same; their
  results are stated by the lemmas of `Legacy`.

## Findings

| source | as written | input that shows it | evidently intended | confidence | as-written member | corrected member |
|---|---|---|---|---|---|---|
| tinyagents/nodes/parallel.py:71-72 | `set_max_workers` stores `max_workers`, an attribute nothing reads; the executor uses `num_workers` | `p.set_max_workers(2)` on a Parallel built without `num_workers`: the pool size stays the default | set the pool size the executor uses | not executed | `Parallels.MaxWorkersIgnored` | `Parallels.PoolSizeSet` |
| tinyagents/nodes.py:98-99 | the legacy Parralel assigns the default name only when the name is missing or empty, and never stores a non-empty one | `Parralel(nodes={...}, name="p")` inside a Recursive invoked with a callback: reading `.name` raises | keep the given name, as the current Parallel does | not executed | `Legacy.ExplicitParallelNameLost` | `Nodes.ParallelName` |
| tinyagents/nodes.py:246-248 | the legacy `Recursive.ainvoke` reads `response` before assigning it | any input: `ainvoke` raises UnboundLocalError | start from `response = None` as `invoke` does, so that `ainvoke` returns what `invoke` returns | not executed | `Legacy.RecursiveAinvokeUnbound` | `NodeFacts.InvokeResultIndependent` |
| tinyagents/tracing.py:61-65 | `@trace_node` wraps the leaf's `invoke`/`ainvoke` in `wrap(cls, x, **kwargs)`, which calls the template with `x` only | a leaf in a graph run with a callback: no `node_start` or `node_finish` is reported for it | pass the callback and the keyword arguments on, so that the template reports the leaf's start and finish | not executed | `NodeFacts.TraceNodeDropsCallback` | `NodeFacts.LeafTemplate` |
