/** The node variants and what invoking each of them does: the NodeMeta
    template for leaves, and the Parallel, ConditionalBranch, Recursive and
    SubGraph composites. `Invoke` is both `invoke` (mode Sync) and `ainvoke`
    (mode Async); the two differ only where the source calls a different
    entry point on the children or reports different events. */
module Nodes {
  import opened Dicts
  import opened Values
  import opened Text

  datatype Mode = Sync | Async

  datatype Node =
      /** A node built from a user object: its `run` (absent when the object
          does not override it) and the `output_handler` policy, which marks
          a raw result terminal exactly when `terminal` holds of it. */
    | Leaf(name: string, run: Option<Value -> Value>, terminal: Value -> bool)
    | Par(name: string, nodes: Dict<Node>)
    | Branch(name: string, branches: Dict<Node>, router: Option<Value -> Value>)
    | Rec(name: string, node1: Node, node2: Node, maxIter: int)
    | Sub(name: string, state: seq<Node>)

  /** The default `output_handler`, `passthrough`: never terminal. */
  predicate NeverFinal(v: Value) { false }

  /** A leaf with `run` implemented and the default output handler. */
  function DefaultLeaf(name: string, f: Value -> Value): Node {
    Leaf(name, Some(f), NeverFinal)
  }

  /** `{node.name: node for node in args}`. */
  function Keyed(args: seq<Node>): Dict<Node> {
    FromPairs(NamePairs(args))
  }

  /** Each node with its name, in order. */
  function NamePairs(args: seq<Node>): (ps: seq<(string, Node)>)
    ensures |ps| == |args|
    ensures forall i :: 0 <= i < |args| ==> ps[i] == (args[i].name, args[i])
  {
    if |args| == 0 then [] else [(args[0].name, args[0])] + NamePairs(args[1..])
  }

  /** The number of rounds `while n <= max_iter` runs when nothing stops it. */
  function Rounds(maxIter: int): nat {
    if maxIter < 0 then 0 else maxIter + 1
  }

  /** `_get_route`: the router's answer, or the input itself without a router. */
  function Route(router: Option<Value -> Value>, x: Value): (r: Value)
    ensures router.None? ==> r == x
    ensures router.Some? ==> r == router.value(x)
  {
    match router
    case None => x
    case Some(f) => f(x)
  }

  /** `_get_node`: the position of the branch the route names, or the error
      raised for a route that names none. */
  function Select<V>(d: Dict<V>, route: Value): (r: Result<nat>)
    ensures r.Ok? <==> route.Str? && route.s in Keys(d)
    ensures r.Ok? ==> r.value < |d.entries| && d.entries[r.value].0 == route.s
                      && Get(d, route.s) == d.entries[r.value].1
    ensures r.Err? && route.Mapping? ==> r.error == Unhashable(route)
    ensures r.Err? && !route.Mapping? ==> r.error == RoutingError(route, Keys(d))
  {
    match route
    case Str(s) => if s in Keys(d) then Ok(IndexOf(Keys(d), s)) else Err(RoutingError(route, Keys(d)))
    case Mapping(_) => Err(Unhashable(route))
    case _ => Err(RoutingError(route, Keys(d)))
  }

  /** The `node_start` calls a Parallel makes before collecting anything. */
  function Starts(keys: seq<string>, x: Value, rid: RunId): (es: seq<Event>)
  {
    seq(|keys|, i requires 0 <= i < |keys| => NodeStart(keys[i], x, rid))
  }

  /** `node.invoke(x, callback, run_id=rid)` in mode Sync, `node.ainvoke(...)`
      in mode Async; `cb` says whether a callback is passed. */
  function Invoke(env: Env, n: Node, x: Value, cb: bool, rid: RunId, mode: Mode): (r: Run)
    ensures !cb ==> r.events == []
    decreases n, 2
  {
    match n
    case Leaf(name, run, terminal) =>
      var start := Notify(cb, [NodeStart(name, x, rid)]);
      var input := GetContent(env, x);
      (match run
       case None => Run(start, Err(NotImplemented(name)))
       case Some(f) =>
         var out := Output(f(input), terminal(f(input)));
         Run(start + Notify(cb, [NodeFinish(name, out, rid)]), Ok(out)))
    case Par(_, nodes) =>
      Prepend(Notify(cb, Starts(Keys(nodes), x, rid)), FanIn(env, n, 0, x, cb, rid, mode, Empty()))
    case Branch(name, branches, router) =>
      var start := Notify(cb, [NodeStart(name, x, rid)]);
      (match Select(branches, Route(router, x))
       case Err(e) => Run(start, Err(e))
       case Ok(i) =>
         var b := Invoke(env, branches.entries[i].1, x, cb, rid, Sync);
         if b.result.Err? then Prepend(start, b)
         else Run(start + b.events + Notify(cb, [NodeFinish(name, b.result.value, rid)]), b.result))
    case Rec(_, _, _, maxIter) => Loop(env, n, x, cb, rid, mode, Rounds(maxIter), 0)
    case Sub(_, state) => Walk(env, state, x, cb, rid, Sync)
  }

  /** The collecting loop of Parallel from position `i` on, `acc` holding the
      outputs collected so far. Sync children get no callback; async children
      get the callback and are awaited one after the other. */
  function FanIn(env: Env, n: Node, i: nat, x: Value, cb: bool, rid: RunId, mode: Mode, acc: Dict<Value>): (r: Run)
    requires n.Par? && i <= |n.nodes.entries|
    ensures !cb ==> r.events == []
    decreases n, 1, |n.nodes.entries| - i
  {
    if i == |n.nodes.entries| then Run([], Ok(Mapping(acc)))
    else
      var key := n.nodes.entries[i].0;
      var c := Invoke(env, n.nodes.entries[i].1, x, cb && mode == Async, rid, mode);
      if c.result.Err? then c
      else
        Prepend(c.events + Notify(cb, [NodeFinish(key, c.result.value, rid)]),
                FanIn(env, n, i + 1, x, cb, rid, mode, Put(acc, key, c.result.value)))
  }

  /** The Recursive loop with `k` rounds still allowed, about to run
      `node1` (j = 0) or `node2` (j = 1). */
  function Loop(env: Env, n: Node, x: Value, cb: bool, rid: RunId, mode: Mode, k: nat, j: nat): (r: Run)
    requires n.Rec? && j < 2
    ensures !cb ==> r.events == []
    decreases n, 1, k, 2 - j
  {
    if k == 0 then Run([], Ok(x))
    else
      var s := if j == 0 then Step(env, n.node1, x, cb, rid, mode) else Step(env, n.node2, x, cb, rid, mode);
      if s.result.Err? then s
      else if CheckForBreak(env, s.result.value) && Truthy(s.result.value) then s
      else if CheckForBreak(env, s.result.value) || j == 1 then
        Prepend(s.events, Loop(env, n, s.result.value, cb, rid, mode, k - 1, 0))
      else
        Prepend(s.events, Loop(env, n, s.result.value, cb, rid, mode, k, 1))
  }

  /** One sub-invocation of Recursive: unwrap, report, invoke, report. The
      Recursive's own events carry the sub-node's name and no run id; in mode
      Async the start event carries the builtin `input`, as the source passes. */
  function Step(env: Env, m: Node, x: Value, cb: bool, rid: RunId, mode: Mode): (r: Run)
    ensures !cb ==> r.events == []
    decreases m, 3
  {
    var input := GetContent(env, x);
    var shown := if mode == Async then Builtin("input") else input;
    var start := Notify(cb, [NodeStart(m.name, shown, NoRunId)]);
    var c := Invoke(env, m, input, cb, rid, mode);
    if c.result.Err? then Prepend(start, c)
    else Run(start + c.events + Notify(cb, [NodeFinish(m.name, c.result.value, NoRunId)]), c.result)
  }

  /** The sequential walk shared by GraphRunner and SubGraph: unwrap, invoke,
      stop at the first terminal output. */
  function Walk(env: Env, ns: seq<Node>, x: Value, cb: bool, rid: RunId, mode: Mode): (r: Run)
    ensures !cb ==> r.events == []
    decreases ns
  {
    if |ns| == 0 then Run([], Ok(x))
    else
      var c := Invoke(env, ns[0], GetContent(env, x), cb, rid, mode);
      if c.result.Err? || CheckForBreak(env, c.result.value) then c
      else Prepend(c.events, Walk(env, ns[1..], c.result.value, cb, rid, mode))
  }

  /** The names of a list of nodes. */
  function Names(ns: seq<Node>): seq<string> {
    seq(|ns|, i requires 0 <= i < |ns| => ns[i].name)
  }

  /** `repr(node)`; a leaf shows its name, a composite its kind with its
      parts in parentheses. */
  function Repr(n: Node): (r: string)
    ensures n.Leaf? ==> r == n.name
    ensures !n.Leaf? ==> |r| > 0 && r[|r| - 1] == ')'
    ensures n.Par? ==> |r| >= 9 && r[..9] == "Parallel("
    ensures n.Branch? ==> |r| >= 18 && r[..18] == "ConditionalBranch("
    ensures n.Rec? ==> |r| >= 10 && r[..10] == "Recursive("
    ensures n.Sub? ==> |r| >= 9 && r[..9] == "SubGraph("
    decreases n, 1
  {
    match n
    case Leaf(name, _, _) => name
    case Par(_, nodes) => "Parallel(" + Join(Keys(nodes), " \U{2227} ") + ")"
    case Branch(_, branches, _) => "ConditionalBranch(" + Join(BranchReprs(n, 0), ", ") + ")"
    case Rec(_, n1, n2, _) => "Recursive(" + n1.name + ", " + n2.name + ")"
    case Sub(_, state) => "SubGraph(" + Join(Names(state), " | ") + ")"
  }

  function BranchReprs(n: Node, i: nat): seq<string>
    requires n.Branch? && i <= |n.branches.entries|
    decreases n, 0, |n.branches.entries| - i
  {
    if i == |n.branches.entries| then [] else [Repr(n.branches.entries[i].1)] + BranchReprs(n, i + 1)
  }

  /** The name Parallel's constructor stores: the one passed, else one made
      from the keys. */
  function ParallelName(keys: seq<string>, name: Option<string>): (r: string)
    ensures name.Some? ==> r == name.value
    ensures name.None? ==> |r| >= 9 && r[..9] == "parallel_"
  {
    if name.None? then "parallel_" + Join(keys, "_") else name.value
  }

  /** The name ConditionalBranch's constructor stores: the one passed, else
      one made from the keys. */
  function BranchName(keys: seq<string>, name: Option<string>): (r: string)
    ensures name.Some? ==> r == name.value
    ensures name.None? ==> |r| >= 19 && r[..19] == "conditional_branch_"
  {
    if name.None? then "conditional_branch_" + Join(keys, "-") else name.value
  }

  /** `Recursive(node1, node2, max_iter, name)`. */
  function MakeRecursive(node1: Node, node2: Node, maxIter: int, name: Option<string>): (r: Node)
    ensures r.Rec? && r.node1 == node1 && r.node2 == node2 && r.maxIter == maxIter
    ensures name.Some? ==> r.name == name.value
    ensures name.None? ==> r.name == "recursive_" + node1.name + "_" + node2.name
  {
    Rec(if name.None? then "recursive_" + node1.name + "_" + node2.name else name.value, node1, node2, maxIter)
  }
}
