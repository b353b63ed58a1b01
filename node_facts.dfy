/** Properties of node invocation: callbacks only observe, the leaf template,
    Parallel's fan-out and fan-in, ConditionalBranch's dispatch and the
    sequential walk's order and early stop. */
module NodeFacts {
  import opened Dicts
  import opened Values
  import opened Text
  import opened Nodes

  // ---------------------------------------------------------------------------
  // Callbacks, run ids and the sync/async choice never change what a node returns.

  lemma {:induction false} InvokeResultIndependent(env: Env, n: Node, x: Value, cb: bool, rid: RunId, mode: Mode)
    ensures Invoke(env, n, x, cb, rid, mode).result == Invoke(env, n, x, false, NoRunId, Sync).result
    decreases n, 2
  {
    match n
    case Leaf(_, _, _) =>
    case Par(_, _) =>
      FanInResultIndependent(env, n, 0, x, cb, rid, mode, Empty());
    case Branch(_, branches, router) =>
      var sel := Select(branches, Route(router, x));
      if sel.Ok? {
        InvokeResultIndependent(env, branches.entries[sel.value].1, x, cb, rid, Sync);
      }
    case Rec(_, _, _, maxIter) =>
      LoopResultIndependent(env, n, x, cb, rid, mode, Rounds(maxIter), 0);
    case Sub(_, state) =>
      WalkResultIndependent(env, state, x, cb, rid, Sync);
  }

  lemma {:induction false} FanInResultIndependent(env: Env, n: Node, i: nat, x: Value, cb: bool, rid: RunId, mode: Mode, acc: Dict<Value>)
    requires n.Par? && i <= |n.nodes.entries|
    ensures FanIn(env, n, i, x, cb, rid, mode, acc).result == FanIn(env, n, i, x, false, NoRunId, Sync, acc).result
    decreases n, 1, |n.nodes.entries| - i
  {
    if i < |n.nodes.entries| {
      InvokeResultIndependent(env, n.nodes.entries[i].1, x, cb && mode == Async, rid, mode);
      var c := Child(env, n, i, x, cb, rid, mode);
      if c.result.Ok? {
        FanInStep(env, n, i, x, cb, rid, mode, acc);
        FanInStep(env, n, i, x, false, NoRunId, Sync, acc);
        FanInResultIndependent(env, n, i + 1, x, cb, rid, mode, Put(acc, n.nodes.entries[i].0, c.result.value));
      }
    }
  }

  lemma {:induction false} LoopResultIndependent(env: Env, n: Node, x: Value, cb: bool, rid: RunId, mode: Mode, k: nat, j: nat)
    requires n.Rec? && j < 2
    ensures Loop(env, n, x, cb, rid, mode, k, j).result == Loop(env, n, x, false, NoRunId, Sync, k, j).result
    decreases n, 1, k, 2 - j
  {
    if k > 0 {
      var m := if j == 0 then n.node1 else n.node2;
      StepResultIndependent(env, m, x, cb, rid, mode);
      LoopResultStep(env, n, x, cb, rid, mode, k, j);
      LoopResultStep(env, n, x, false, NoRunId, Sync, k, j);
      var s := Step(env, m, x, cb, rid, mode);
      if s.result.Ok? {
        LoopResultIndependent(env, n, s.result.value, cb, rid, mode, k - 1, 0);
        if j == 0 {
          LoopResultIndependent(env, n, s.result.value, cb, rid, mode, k, 1);
        }
      }
    }
  }

  /** The result of one round of the Recursive loop, from the result of its step. */
  lemma LoopResultStep(env: Env, n: Node, x: Value, cb: bool, rid: RunId, mode: Mode, k: nat, j: nat)
    requires n.Rec? && j < 2 && k > 0
    ensures var s := Step(env, if j == 0 then n.node1 else n.node2, x, cb, rid, mode).result;
      Loop(env, n, x, cb, rid, mode, k, j).result
      == if s.Err? || (CheckForBreak(env, s.value) && Truthy(s.value)) then s
         else if CheckForBreak(env, s.value) || j == 1 then Loop(env, n, s.value, cb, rid, mode, k - 1, 0).result
         else Loop(env, n, s.value, cb, rid, mode, k, 1).result
  {
  }

  lemma {:induction false} StepResultIndependent(env: Env, m: Node, x: Value, cb: bool, rid: RunId, mode: Mode)
    ensures Step(env, m, x, cb, rid, mode).result == Step(env, m, x, false, NoRunId, Sync).result
    decreases m, 3
  {
    InvokeResultIndependent(env, m, GetContent(env, x), cb, rid, mode);
  }

  lemma {:induction false} WalkResultIndependent(env: Env, ns: seq<Node>, x: Value, cb: bool, rid: RunId, mode: Mode)
    ensures Walk(env, ns, x, cb, rid, mode).result == Walk(env, ns, x, false, NoRunId, Sync).result
    decreases ns
  {
    if |ns| > 0 {
      InvokeResultIndependent(env, ns[0], GetContent(env, x), cb, rid, mode);
      var c := Invoke(env, ns[0], GetContent(env, x), cb, rid, mode);
      if c.result.Ok? {
        WalkResultIndependent(env, ns[1..], c.result.value, cb, rid, mode);
      }
    }
  }

  // ---------------------------------------------------------------------------
  // The NodeMeta template on a leaf.

  /** Start event with the raw input, then prepare_input (unwrap), run,
      output_handler, then one finish event with the handler's value; a leaf
      without `run` raises after the start event. */
  lemma LeafTemplate(env: Env, n: Node, x: Value, cb: bool, rid: RunId, mode: Mode)
    requires n.Leaf?
    ensures var r := Invoke(env, n, x, cb, rid, mode);
      && (n.run.None? ==>
            r == Run(Notify(cb, [NodeStart(n.name, x, rid)]), Err(NotImplemented(n.name))))
      && (n.run.Some? ==>
            var raw := n.run.value(GetContent(env, x));
            r.result == Ok(Output(raw, n.terminal(raw)))
            && r.events == Notify(cb, [NodeStart(n.name, x, rid), NodeFinish(n.name, r.result.value, rid)]))
  {
  }

  /** A leaf's `invoke`/`ainvoke` behind the `@trace_node` wrapper, as
      written: the wrapper hands only `x` on, so the template runs with no
      callback and no run id, whether or not a tracer is bound. */
  function TracedLeaf(env: Env, n: Node, x: Value, cb: bool, rid: RunId, mode: Mode): (r: Run)
    requires n.Leaf?
    ensures r.events == []
    ensures r.result == Invoke(env, n, x, cb, rid, mode).result
  {
    Invoke(env, n, x, false, NoRunId, mode)
  }

  /** The wrapper silences the leaf: where the template reports a start (and,
      with an implemented `run`, a finish), the wrapped leaf reports nothing. */
  lemma TraceNodeDropsCallback(env: Env, n: Node, x: Value, rid: RunId, mode: Mode)
    requires n.Leaf?
    ensures TracedLeaf(env, n, x, true, rid, mode).events == []
    ensures Invoke(env, n, x, true, rid, mode).events[0] == NodeStart(n.name, x, rid)
    ensures n.run.Some? ==> |Invoke(env, n, x, true, rid, mode).events| == 2
  {
    LeafTemplate(env, n, x, true, rid, mode);
  }

  /** A leaf with the default output handler never ends a flow. */
  lemma DefaultLeafNeverFinal(env: Env, name: string, f: Value -> Value, x: Value, cb: bool, rid: RunId, mode: Mode)
    ensures var r := Invoke(env, DefaultLeaf(name, f), x, cb, rid, mode);
      r.result == Ok(Output(f(GetContent(env, x)), false)) && !CheckForBreak(env, r.result.value)
  {
  }

  // ---------------------------------------------------------------------------
  // ConditionalBranch.

  /** Exactly one branch runs: the one the route names, on the ORIGINAL input,
      and its output is returned unchanged between the ConditionalBranch's own
      start and finish events. A route naming no branch raises after the start
      event, before any branch runs. */
  lemma BranchDispatch(env: Env, n: Node, x: Value, cb: bool, rid: RunId, mode: Mode)
    requires n.Branch?
    ensures var route := Route(n.router, x);
      var r := Invoke(env, n, x, cb, rid, mode);
      var start := Notify(cb, [NodeStart(n.name, x, rid)]);
      && (route.Str? && route.s in Keys(n.branches) ==>
            var c := Invoke(env, Get(n.branches, route.s), x, cb, rid, Sync);
            r.result == c.result
            && r.events == start + c.events + (if c.result.Ok? then Notify(cb, [NodeFinish(n.name, c.result.value, rid)]) else []))
      && (!(route.Str? && route.s in Keys(n.branches)) ==>
            r.events == start
            && r.result == Err(if route.Mapping? then Unhashable(route) else RoutingError(route, Keys(n.branches))))
  {
  }

  // ---------------------------------------------------------------------------
  // Parallel.

  /** What child `i` of a Parallel returns: `invoke` on the same input, with no
      callback in mode Sync, with the callback in mode Async. */
  function Child(env: Env, n: Node, i: nat, x: Value, cb: bool, rid: RunId, mode: Mode): Run
    requires n.Par? && i < |n.nodes.entries|
  {
    Invoke(env, n.nodes.entries[i].1, x, cb && mode == Async, rid, mode)
  }

  ghost predicate ChildrenSucceedFrom(env: Env, n: Node, i: nat, x: Value, cb: bool, rid: RunId, mode: Mode)
    requires n.Par?
  {
    forall j :: i <= j < |n.nodes.entries| ==> Child(env, n, j, x, cb, rid, mode).result.Ok?
  }

  /** The name -> output pairs from position `i` on, in insertion order. */
  function Collected(env: Env, n: Node, i: nat, x: Value, cb: bool, rid: RunId, mode: Mode): (ps: seq<(string, Value)>)
    requires n.Par? && i <= |n.nodes.entries|
    requires ChildrenSucceedFrom(env, n, i, x, cb, rid, mode)
    ensures |ps| == |n.nodes.entries| - i
    ensures forall j :: 0 <= j < |ps| ==> ps[j] == (n.nodes.entries[i + j].0, Child(env, n, i + j, x, cb, rid, mode).result.value)
    decreases |n.nodes.entries| - i
  {
    if i == |n.nodes.entries| then []
    else [(n.nodes.entries[i].0, Child(env, n, i, x, cb, rid, mode).result.value)] + Collected(env, n, i + 1, x, cb, rid, mode)
  }

  /** The events of the collecting loop from position `i` on: each child's own
      events, then the Parallel's finish event for it. */
  function Gathered(env: Env, n: Node, i: nat, x: Value, cb: bool, rid: RunId, mode: Mode): seq<Event>
    requires n.Par? && i <= |n.nodes.entries|
    requires ChildrenSucceedFrom(env, n, i, x, cb, rid, mode)
    decreases |n.nodes.entries| - i
  {
    if i == |n.nodes.entries| then []
    else
      var c := Child(env, n, i, x, cb, rid, mode);
      c.events + Notify(cb, [NodeFinish(n.nodes.entries[i].0, c.result.value, rid)]) + Gathered(env, n, i + 1, x, cb, rid, mode)
  }

  /** The `node_finish` calls of a sync Parallel from position `i` on. */
  function Finishes(env: Env, n: Node, i: nat, x: Value, cb: bool, rid: RunId, mode: Mode): (es: seq<Event>)
    requires n.Par? && i <= |n.nodes.entries|
    requires ChildrenSucceedFrom(env, n, i, x, cb, rid, mode)
    ensures |es| == |n.nodes.entries| - i
    ensures forall j :: 0 <= j < |es| ==>
              es[j] == NodeFinish(n.nodes.entries[i + j].0, Child(env, n, i + j, x, cb, rid, mode).result.value, rid)
    decreases |n.nodes.entries| - i
  {
    if i == |n.nodes.entries| then []
    else [NodeFinish(n.nodes.entries[i].0, Child(env, n, i, x, cb, rid, mode).result.value, rid)] + Finishes(env, n, i + 1, x, cb, rid, mode)
  }

  /** With the keys before position `i` collected, the key at `i` is new and
      is appended. */
  lemma CollectNext<V, W>(nodes: Dict<W>, acc: Dict<V>, i: nat, v: V)
    requires Valid(nodes) && i < |nodes.entries|
    requires Keys(acc) == Keys(nodes)[..i]
    ensures nodes.entries[i].0 !in Keys(acc)
    ensures Put(acc, nodes.entries[i].0, v).entries == acc.entries + [(nodes.entries[i].0, v)]
    ensures Keys(Put(acc, nodes.entries[i].0, v)) == Keys(nodes)[..i + 1]
  {
    var key := nodes.entries[i].0;
    forall j | 0 <= j < i ensures Keys(acc)[j] != key {
      assert Keys(acc)[j] == nodes.entries[j].0;
    }
  }

  lemma {:induction false} FanInAllSucceed(env: Env, n: Node, i: nat, x: Value, cb: bool, rid: RunId, mode: Mode, acc: Dict<Value>)
    requires n.Par? && Valid(n.nodes) && i <= |n.nodes.entries|
    requires ChildrenSucceedFrom(env, n, i, x, cb, rid, mode)
    requires Keys(acc) == Keys(n.nodes)[..i]
    ensures FanIn(env, n, i, x, cb, rid, mode, acc)
            == Run(Gathered(env, n, i, x, cb, rid, mode), Ok(Mapping(Dict(acc.entries + Collected(env, n, i, x, cb, rid, mode)))))
    decreases |n.nodes.entries| - i
  {
    if i == |n.nodes.entries| {
      assert acc.entries + [] == acc.entries;
    } else {
      var key := n.nodes.entries[i].0;
      var c := Child(env, n, i, x, cb, rid, mode);
      var out := c.result.value;
      var acc' := Put(acc, key, out);
      CollectNext(n.nodes, acc, i, out);
      FanInAllSucceed(env, n, i + 1, x, cb, rid, mode, acc');
      FanInStep(env, n, i, x, cb, rid, mode, acc);
      CollectedStep(env, n, i, x, cb, rid, mode);
      var rest := Collected(env, n, i + 1, x, cb, rid, mode);
      ConcatAssoc(acc.entries, [(key, out)], rest);
    }
  }

  lemma ConcatAssoc<T>(a: seq<T>, b: seq<T>, c: seq<T>)
    ensures a + (b + c) == (a + b) + c
  {
  }

  /** One step of the collecting loop when child `i` succeeds. */
  lemma FanInStep(env: Env, n: Node, i: nat, x: Value, cb: bool, rid: RunId, mode: Mode, acc: Dict<Value>)
    requires n.Par? && i < |n.nodes.entries|
    requires Child(env, n, i, x, cb, rid, mode).result.Ok?
    ensures var c := Child(env, n, i, x, cb, rid, mode);
      var key := n.nodes.entries[i].0;
      FanIn(env, n, i, x, cb, rid, mode, acc)
      == Prepend(c.events + Notify(cb, [NodeFinish(key, c.result.value, rid)]),
                 FanIn(env, n, i + 1, x, cb, rid, mode, Put(acc, key, c.result.value)))
  {
  }

  lemma CollectedStep(env: Env, n: Node, i: nat, x: Value, cb: bool, rid: RunId, mode: Mode)
    requires n.Par? && i < |n.nodes.entries|
    requires ChildrenSucceedFrom(env, n, i, x, cb, rid, mode)
    ensures var c := Child(env, n, i, x, cb, rid, mode);
      && Collected(env, n, i, x, cb, rid, mode)
         == [(n.nodes.entries[i].0, c.result.value)] + Collected(env, n, i + 1, x, cb, rid, mode)
      && Gathered(env, n, i, x, cb, rid, mode)
         == c.events + Notify(cb, [NodeFinish(n.nodes.entries[i].0, c.result.value, rid)]) + Gathered(env, n, i + 1, x, cb, rid, mode)
  {
  }

  lemma {:induction false} GatheredSync(env: Env, n: Node, i: nat, x: Value, cb: bool, rid: RunId)
    requires n.Par? && i <= |n.nodes.entries|
    requires ChildrenSucceedFrom(env, n, i, x, cb, rid, Sync)
    ensures Gathered(env, n, i, x, cb, rid, Sync) == Notify(cb, Finishes(env, n, i, x, cb, rid, Sync))
    decreases |n.nodes.entries| - i
  {
    if i < |n.nodes.entries| {
      GatheredSync(env, n, i + 1, x, cb, rid);
    }
  }

  /** Fan-out and fan-in: when every child succeeds, the result maps exactly
      the Parallel's keys, in order, to what each child's `invoke` returns on
      the same input. All starts come first, in insertion order; then, in
      insertion order, each child's own events (async only) and the finish
      event for it. A sync Parallel reports only its own starts and finishes. */
  lemma {:induction false} ParallelFanOutFanIn(env: Env, n: Node, x: Value, cb: bool, rid: RunId, mode: Mode)
    requires n.Par? && Valid(n.nodes)
    requires ChildrenSucceedFrom(env, n, 0, x, cb, rid, mode)
    ensures var r := Invoke(env, n, x, cb, rid, mode);
      && r.result.Ok? && r.result.value.Mapping?
      && Keys(r.result.value.outputs) == Keys(n.nodes)
      && (forall i :: 0 <= i < |n.nodes.entries| ==>
            r.result.value.outputs.entries[i].1 == Child(env, n, i, x, cb, rid, mode).result.value)
      && r.events == Notify(cb, Starts(Keys(n.nodes), x, rid)) + Gathered(env, n, 0, x, cb, rid, mode)
      && (mode == Sync ==> r.events == Notify(cb, Starts(Keys(n.nodes), x, rid) + Finishes(env, n, 0, x, cb, rid, mode)))
  {
    assert Keys(Empty<Value>()) == Keys(n.nodes)[..0];
    FanInAllSucceed(env, n, 0, x, cb, rid, mode, Empty());
    assert Empty<Value>().entries + Collected(env, n, 0, x, cb, rid, mode) == Collected(env, n, 0, x, cb, rid, mode);
    if mode == Sync {
      GatheredSync(env, n, 0, x, cb, rid);
    }
  }

  lemma {:induction false} FanInFirstFailure(env: Env, n: Node, i: nat, f: nat, x: Value, cb: bool, rid: RunId, mode: Mode)
    requires n.Par? && i <= f < |n.nodes.entries|
    requires forall j :: i <= j < f ==> Child(env, n, j, x, cb, rid, mode).result.Ok?
    requires Child(env, n, f, x, cb, rid, mode).result.Err?
    ensures forall acc :: FanIn(env, n, i, x, cb, rid, mode, acc).result == Child(env, n, f, x, cb, rid, mode).result
    decreases f - i
  {
    if i < f {
      FanInFirstFailure(env, n, i + 1, f, x, cb, rid, mode);
    }
    forall acc: Dict<Value> ensures FanIn(env, n, i, x, cb, rid, mode, acc).result == Child(env, n, f, x, cb, rid, mode).result {
      if i == f {
        FanInFails(env, n, i, x, cb, rid, mode, acc);
      } else {
        FanInStep(env, n, i, x, cb, rid, mode, acc);
      }
    }
  }

  /** The collecting loop stops at a child that raises, with that child's run. */
  lemma FanInFails(env: Env, n: Node, i: nat, x: Value, cb: bool, rid: RunId, mode: Mode, acc: Dict<Value>)
    requires n.Par? && i < |n.nodes.entries|
    requires Child(env, n, i, x, cb, rid, mode).result.Err?
    ensures FanIn(env, n, i, x, cb, rid, mode, acc) == Child(env, n, i, x, cb, rid, mode)
  {
  }

  /** A failing child makes the Parallel raise the error of the FIRST failing
      child in insertion order. */
  lemma ParallelFirstFailure(env: Env, n: Node, f: nat, x: Value, cb: bool, rid: RunId, mode: Mode)
    requires n.Par? && f < |n.nodes.entries|
    requires forall j :: 0 <= j < f ==> Child(env, n, j, x, cb, rid, mode).result.Ok?
    requires Child(env, n, f, x, cb, rid, mode).result.Err?
    ensures Invoke(env, n, x, cb, rid, mode).result == Child(env, n, f, x, cb, rid, mode).result
  {
    FanInFirstFailure(env, n, 0, f, x, cb, rid, mode);
  }

  // ---------------------------------------------------------------------------
  // The sequential walk of GraphRunner and SubGraph.

  /** The walk ended: an error, or a terminal output. */
  predicate Stopped(env: Env, r: Run) {
    r.result.Err? || CheckForBreak(env, r.result.value)
  }

  /** Walking `ns + rest`: once the walk over `ns` has stopped, no later node
      is invoked and nothing changes; while it has not stopped, the walk goes
      on with `rest`, whose first node receives the unwrapped content of the
      last output. */
  lemma {:induction false} WalkSplit(env: Env, ns: seq<Node>, rest: seq<Node>, x: Value, cb: bool, rid: RunId, mode: Mode)
    ensures var w := Walk(env, ns, x, cb, rid, mode);
      && (|ns| > 0 && Stopped(env, w) ==> Walk(env, ns + rest, x, cb, rid, mode) == w)
      && (!(|ns| > 0 && Stopped(env, w)) ==>
            w.result.Ok? && Walk(env, ns + rest, x, cb, rid, mode) == Prepend(w.events, Walk(env, rest, w.result.value, cb, rid, mode)))
  {
    if |ns| == 0 {
      assert ns + rest == rest;
    } else {
      assert (ns + rest)[0] == ns[0];
      assert (ns + rest)[1..] == ns[1..] + rest;
      WalkStep(env, ns, x, cb, rid, mode);
      WalkStep(env, ns + rest, x, cb, rid, mode);
      var c := Invoke(env, ns[0], GetContent(env, x), cb, rid, mode);
      if !Stopped(env, c) {
        var w' := Walk(env, ns[1..], c.result.value, cb, rid, mode);
        WalkSplit(env, ns[1..], rest, c.result.value, cb, rid, mode);
        if !(|ns[1..]| > 0 && Stopped(env, w')) {
          var t := Walk(env, rest, w'.result.value, cb, rid, mode);
          ConcatAssoc(c.events, w'.events, t.events);
        }
      }
    }
  }

  /** One step of a loop over `ns` seen from its caller: what has been
      reported so far followed by the rest of the walk from position `i`. */
  lemma WalkAdvance(env: Env, ns: seq<Node>, i: nat, x: Value, cb: bool, rid: RunId, mode: Mode, events: seq<Event>)
    requires i < |ns|
    ensures var c := Invoke(env, ns[i], GetContent(env, x), cb, rid, mode);
      var w := Prepend(events, Walk(env, ns[i..], x, cb, rid, mode));
      && (Stopped(env, c) ==> w == Run(events + c.events, c.result))
      && (!Stopped(env, c) ==> w == Prepend(events + c.events, Walk(env, ns[i + 1..], c.result.value, cb, rid, mode)))
  {
    WalkStep(env, ns[i..], x, cb, rid, mode);
    assert ns[i..][0] == ns[i] && ns[i..][1..] == ns[i + 1..];
    var c := Invoke(env, ns[i], GetContent(env, x), cb, rid, mode);
    if !Stopped(env, c) {
      ConcatAssoc(events, c.events, Walk(env, ns[i + 1..], c.result.value, cb, rid, mode).events);
    }
  }

  /** The first step of a walk over a non-empty list. */
  lemma WalkStep(env: Env, ns: seq<Node>, x: Value, cb: bool, rid: RunId, mode: Mode)
    requires |ns| > 0
    ensures var c := Invoke(env, ns[0], GetContent(env, x), cb, rid, mode);
      Walk(env, ns, x, cb, rid, mode)
      == if Stopped(env, c) then c else Prepend(c.events, Walk(env, ns[1..], c.result.value, cb, rid, mode))
  {
  }

  /** A walk of one node is that node's invocation on the unwrapped input. */
  lemma WalkOne(env: Env, n: Node, x: Value, cb: bool, rid: RunId, mode: Mode)
    ensures Walk(env, [n], x, cb, rid, mode) == Invoke(env, n, GetContent(env, x), cb, rid, mode)
  {
    var c := Invoke(env, n, GetContent(env, x), cb, rid, mode);
    assert [n][1..] == [];
    if !Stopped(env, c) {
      assert Walk(env, [], c.result.value, cb, rid, mode) == Run([], c.result);
    }
  }

  // ---------------------------------------------------------------------------
  // Construction and naming.

  /** `{node.name: node for node in args}`: the keys are exactly the names of
      `args`, and each name maps to the LAST node carrying it. */
  lemma KeyedByName(args: seq<Node>)
    ensures Valid(Keyed(args))
    ensures forall k :: k in Keys(Keyed(args)) <==> exists i :: 0 <= i < |args| && args[i].name == k
    ensures forall i :: 0 <= i < |args| && (forall j :: i < j < |args| ==> args[j].name != args[i].name) ==>
              args[i].name in Keys(Keyed(args)) && Get(Keyed(args), args[i].name) == args[i]
  {
    var ps := NamePairs(args);
    forall k ensures k in Keys(Keyed(args)) <==> exists i :: 0 <= i < |args| && args[i].name == k {
      FromPairsKeys(ps, k);
      if exists i :: 0 <= i < |args| && args[i].name == k {
        var i :| 0 <= i < |args| && args[i].name == k;
        assert ps[i].0 == k;
      }
    }
    forall i | 0 <= i < |args| && (forall j :: i < j < |args| ==> args[j].name != args[i].name)
      ensures args[i].name in Keys(Keyed(args)) && Get(Keyed(args), args[i].name) == args[i]
    {
      FromPairsLast(ps, i);
    }
  }

  /** Default names are not unique: a Parallel over one node named "a_b" and
      one over nodes "a" and "b" get the same name, and likewise for
      ConditionalBranch with "a-b". */
  lemma DefaultNamesCollide()
    ensures ParallelName(["a_b"], None) == ParallelName(["a", "b"], None)
    ensures BranchName(["a-b"], None) == BranchName(["a", "b"], None)
  {
  }
}
