/** The older node classes of `tinyagents/nodes.py`: NodeMeta, Parralel,
    ConditionalBranch and Recursive before they were split into a package.
    They differ from the current ones in what they forward to their children
    (neither the callback nor a run id), in how they are named, in what the
    default `run` does, and in `a | g`. Only `invoke` is modelled for
    Recursive, because its `ainvoke` raises before doing anything. */
module Legacy {
  import opened Dicts
  import opened Values
  import opened Text
  import opened Nodes
  import opened NodeFacts
  import opened Graphs
  import opened Recursives

  datatype LNode =
      /** A NodeMeta subclass; `run` None when it keeps the default `run`. */
    | LLeaf(name: string, run: Option<Value -> Value>, terminal: Value -> bool)
      /** `Parralel`; `name` None when the attribute was never assigned. */
    | LPar(parName: Option<string>, nodes: Dict<LNode>)
      /** `ConditionalBranch`; its name is its repr. */
    | LBranch(branches: Dict<LNode>, router: Option<Value -> Value>)
      /** `Recursive`; `name` None when it is Python None, the default. */
    | LRec(recName: Option<string>, node1: LNode, node2: LNode, maxIter: int)

  /** A call on the callback; the legacy calls carry no run id, and the node
      name is None where the node's `name` is Python None. */
  datatype LEvent =
    | LStart(node: Option<string>, inputs: Value)
    | LFinish(node: Option<string>, outputs: Value)

  datatype LRun = LRun(events: seq<LEvent>, result: Result<Value>)

  function LPrepend(es: seq<LEvent>, r: LRun): LRun {
    LRun(es + r.events, r.result)
  }

  function LNotify(cb: bool, es: seq<LEvent>): seq<LEvent> {
    if cb then es else []
  }

  /** The `name` property of ConditionalBranch: its repr over the current keys. */
  function LegacyBranchName(keys: seq<string>): (s: string)
    ensures |s| >= 19 && s[..18] == "ConditionalBranch(" && s[|s| - 1] == ')'
  {
    "ConditionalBranch(" + Join(keys, " | ") + ")"
  }

  /** The name Parralel's constructor assigns: the default one when the name
      is missing or empty (`if not name`), and nothing at all when a
      non-empty name is passed. */
  function LegacyParallelName(keys: seq<string>, name: Option<string>): (r: Option<string>)
    ensures r.Some? <==> name.None? || name.value == ""
    ensures r.Some? ==> r.value == "parallel_" + Join(keys, "_")
  {
    if name.None? || name.value == "" then Some("parallel_" + Join(keys, "_")) else None
  }

  /** `node.name`, which raises for a Parralel given an explicit name. */
  function LName(n: LNode): (r: Result<Option<string>>)
    ensures r.Err? <==> n.LPar? && n.parName.None?
    ensures n.LBranch? ==> r == Ok(Some(LegacyBranchName(Keys(n.branches))))
  {
    match n
    case LLeaf(name, _, _) => Ok(Some(name))
    case LPar(name, _) => if name.None? then Err(MissingName) else Ok(name)
    case LBranch(branches, _) => Ok(Some(LegacyBranchName(Keys(branches))))
    case LRec(name, _, _, _) => Ok(name)
  }

  function LStarts(keys: seq<string>, x: Value): (es: seq<LEvent>)
    ensures |es| == |keys|
    ensures forall i :: 0 <= i < |keys| ==> es[i] == LStart(Some(keys[i]), x)
  {
    seq(|keys|, i requires 0 <= i < |keys| => LStart(Some(keys[i]), x))
  }

  /** `invoke(inputs, callback)` in mode Sync, `ainvoke` in mode Async. */
  function LInvoke(env: Env, n: LNode, x: Value, cb: bool, mode: Mode): (r: LRun)
    ensures !cb ==> r.events == []
    decreases n, 2
  {
    match n
    case LLeaf(name, run, terminal) =>
      var input := GetContent(env, x);
      var raw := (match run case None => Nil case Some(f) => f(input));
      var out := Output(raw, terminal(raw));
      LRun(LNotify(cb, [LStart(Some(name), x), LFinish(Some(name), out)]), Ok(out))
    case LPar(_, nodes) =>
      LPrepend(LNotify(cb, LStarts(Keys(nodes), x)), LFanIn(env, n, 0, x, cb, mode, Empty()))
    case LBranch(branches, router) =>
      var name := Some(LegacyBranchName(Keys(branches)));
      var start := LNotify(cb, [LStart(name, x)]);
      (match Select(branches, Route(router, x))
       case Err(e) => LRun(start, Err(e))
       case Ok(i) =>
         var c := LInvoke(env, branches.entries[i].1, x, false, Sync);
         if c.result.Err? then LRun(start, c.result)
         else LRun(start + LNotify(cb, [LFinish(name, c.result.value)]), c.result))
    case LRec(_, _, _, maxIter) =>
      if mode == Async then LRun([], Err(Unbound("response")))
      else LLoop(env, n, x, cb, Rounds(maxIter), 0)
  }

  /** The collecting loop of Parralel from position `i` on. Children are
      invoked on the raw input, without the callback. */
  function LFanIn(env: Env, n: LNode, i: nat, x: Value, cb: bool, mode: Mode, acc: Dict<Value>): (r: LRun)
    requires n.LPar? && i <= |n.nodes.entries|
    ensures !cb ==> r.events == []
    decreases n, 1, |n.nodes.entries| - i
  {
    if i == |n.nodes.entries| then LRun([], Ok(Mapping(acc)))
    else
      var key := n.nodes.entries[i].0;
      var c := LInvoke(env, n.nodes.entries[i].1, x, false, mode);
      if c.result.Err? then LRun([], c.result)
      else LPrepend(LNotify(cb, [LFinish(Some(key), c.result.value)]),
                    LFanIn(env, n, i + 1, x, cb, mode, Put(acc, key, c.result.value)))
  }

  /** The `while not response and n <= max_iter` loop with `k` rounds left,
      about to run node1 (j = 0) or node2 (j = 1). */
  function LLoop(env: Env, n: LNode, x: Value, cb: bool, k: nat, j: nat): (r: LRun)
    requires n.LRec? && j < 2
    ensures !cb ==> r.events == []
    decreases n, 1, k, 2 - j
  {
    if k == 0 then LRun([], Ok(x))
    else
      var s := if j == 0 then LStep(env, n.node1, x, cb) else LStep(env, n.node2, x, cb);
      if s.result.Err? then s
      else if CheckForBreak(env, s.result.value) && Truthy(s.result.value) then s
      else if CheckForBreak(env, s.result.value) || j == 1 then
        LPrepend(s.events, LLoop(env, n, s.result.value, cb, k - 1, 0))
      else
        LPrepend(s.events, LLoop(env, n, s.result.value, cb, k, 1))
  }

  /** One sub-invocation: the start event shows the unwrapped input, but the
      sub-node is invoked on `x` as it is, without the callback; the name is
      read only when there is a callback. */
  function LStep(env: Env, m: LNode, x: Value, cb: bool): (r: LRun)
    ensures !cb ==> r.events == []
    decreases m, 3
  {
    var input := GetContent(env, x);
    var who := LName(m);
    if cb && who.Err? then LRun([], Err(who.error))
    else
      var c := LInvoke(env, m, x, false, Sync);
      if !cb then LRun([], c.result)
      else if c.result.Err? then LRun([LStart(who.value, input)], c.result)
      else LRun([LStart(who.value, input), LFinish(who.value, c.result.value)], c.result)
  }

  // ---------------------------------------------------------------------------
  // Objects.

  /** The legacy Parralel object, built from a `nodes` dict. */
  class LegacyParallel {
    var name: Option<string>
    var nodes: Dict<LNode>
    var numWorkers: Option<int>

    constructor(nodes: Dict<LNode>, name: Option<string>, numWorkers: Option<int>)
      ensures this.nodes == nodes && this.numWorkers == numWorkers
      ensures this.name == LegacyParallelName(Keys(nodes), name)
    {
      this.nodes := nodes;
      this.numWorkers := numWorkers;
      this.name := LegacyParallelName(Keys(nodes), name);
    }

    function AsNode(): (n: LNode)
      reads this
      ensures n.LPar? && n.parName == name && n.nodes == nodes
    {
      LPar(name, nodes)
    }

    /** `p & node`: store the node under its name, or raise when the node
        has no name attribute. */
    method And(n: LNode) returns (r: Result<LegacyParallel>)
      requires LName(n) != Ok(None)
      modifies this
      ensures LName(n).Err? ==> r == Err(MissingName) && nodes == old(nodes)
      ensures LName(n).Ok? ==> r == Ok(this) && nodes == Put(old(nodes), LName(n).value.value, n)
      ensures name == old(name) && numWorkers == old(numWorkers)
    {
      var who := LName(n);
      if who.Err? {
        return Err(MissingName);
      }
      nodes := Put(nodes, who.value.value, n);
      r := Ok(this);
    }
  }

  /** The legacy ConditionalBranch object, built from a `branches` dict. */
  class LegacyBranch {
    var branches: Dict<LNode>
    var router: Option<Value -> Value>

    constructor(branches: Dict<LNode>, router: Option<Value -> Value>)
      ensures this.branches == branches && this.router == router
    {
      this.branches := branches;
      this.router := router;
    }

    /** The `name` property, recomputed from the current keys. */
    function Name(): (s: string)
      reads this
      ensures s == LegacyBranchName(Keys(branches))
    {
      LegacyBranchName(Keys(branches))
    }

    function AsNode(): (n: LNode)
      reads this
      ensures n.LBranch? && n.branches == branches && n.router == router
      ensures LName(n) == Ok(Some(Name()))
    {
      LBranch(branches, router)
    }

    /** `branch / node`: store the node under its name, or raise when the
        node has no name attribute. The name of the branch follows. */
    method Div(n: LNode) returns (r: Result<LegacyBranch>)
      requires LName(n) != Ok(None)
      modifies this
      ensures LName(n).Err? ==> r == Err(MissingName) && branches == old(branches)
      ensures LName(n).Ok? ==> r == Ok(this) && branches == Put(old(branches), LName(n).value.value, n)
      ensures router == old(router)
    {
      var who := LName(n);
      if who.Err? {
        return Err(MissingName);
      }
      branches := Put(branches, who.value.value, n);
      r := Ok(this);
    }

    /** `bind_router`. */
    method BindRouter(f: Value -> Value) returns (b: LegacyBranch)
      modifies this
      ensures b == this && router == Some(f) && branches == old(branches)
    {
      router := Some(f);
      b := this;
    }
  }

  /** The right operand of `|`: a node or a Graph. */
  datatype Operand = NodeOperand(node: Node) | GraphOperand(graph: Graph)

  /** Legacy `a | other`: with a Graph on the right, `a` is appended to the
      END of that graph, which is returned; with a node, a new graph
      `[a, other]`. The operands are taken as current nodes because `Graph`
      holds current nodes; `|` only stores them and never invokes them, so
      which kind of node they are does not change what it does. */
  method Pipe(a: Node, other: Operand) returns (g: Graph)
    modifies if other.GraphOperand? then {other.graph.state} else {}
    ensures other.GraphOperand? ==> g == other.graph && g.state.items == old(other.graph.state.items) + [a]
    ensures other.NodeOperand? ==> fresh(g) && g.state.items == [a, other.node]
  {
    match other
    case GraphOperand(h) =>
      h.Next(a);
      g := h;
    case NodeOperand(b) =>
      g := Chain(a, b);
  }

  // ---------------------------------------------------------------------------
  // Properties.

  /** The default `run` returns None, which the default handler wraps; the
      current NodeMeta raises NotImplementedError instead. */
  lemma DefaultRunReturnsNone(env: Env, name: string, terminal: Value -> bool, x: Value, cb: bool, mode: Mode)
    ensures LInvoke(env, LLeaf(name, None, terminal), x, cb, mode).result == Ok(Output(Nil, terminal(Nil)))
    ensures Nodes.Invoke(env, Leaf(name, None, terminal), x, cb, NoRunId, mode).result == Err(NotImplemented(name))
  {
  }

  /** A ConditionalBranch reports its own start and finish only, both under
      its repr; the chosen branch runs on the raw input without the callback. */
  lemma BranchDispatchQuiet(env: Env, branches: Dict<LNode>, router: Option<Value -> Value>, x: Value, cb: bool, mode: Mode)
    ensures var r := LInvoke(env, LBranch(branches, router), x, cb, mode);
      var name := Some(LegacyBranchName(Keys(branches)));
      var sel := Select(branches, Route(router, x));
      && (sel.Err? ==> r == LRun(LNotify(cb, [LStart(name, x)]), Err(sel.error)))
      && (sel.Ok? ==> var c := LInvoke(env, branches.entries[sel.value].1, x, false, Sync);
                      && r.result == c.result
                      && r.events == LNotify(cb, [LStart(name, x)] + (if c.result.Ok? then [LFinish(name, c.result.value)] else [])))
  {
  }

  /** Adding a branch under a new key changes the branch's name: the key is
      appended inside the parentheses. */
  lemma BranchNameAppends(keys: seq<string>, k: string)
    requires |keys| > 0
    ensures var s := LegacyBranchName(keys);
      LegacyBranchName(keys + [k]) == s[..|s| - 1] + " | " + k + ")"
  {
    var s := LegacyBranchName(keys);
    JoinSnoc(keys, k, " | ");
    assert s[..|s| - 1] == "ConditionalBranch(" + Join(keys, " | ");
  }

  /** `/` with a node under a new name renames the branch. */
  method DivRenames(b: LegacyBranch, n: LNode) returns (r: Result<LegacyBranch>)
    requires n.LLeaf? && n.name !in Keys(b.branches) && |b.branches.entries| > 0
    modifies b
    ensures r == Ok(b)
    ensures b.Name() == old(b.Name())[..|old(b.Name())| - 1] + " | " + n.name + ")"
  {
    BranchNameAppends(Keys(b.branches), n.name);
    r := b.Div(n);
  }

  /** Every event a Parralel reports names one of its own keys: the children
      get no callback, so nothing they do is reported. With a callback the
      starts come first, in key order. */
  lemma ParallelReportsOnlyItself(env: Env, name: Option<string>, nodes: Dict<LNode>, x: Value, cb: bool, mode: Mode)
    ensures var r := LInvoke(env, LPar(name, nodes), x, cb, mode);
      && (forall e :: e in r.events ==> e.node.Some? && e.node.value in Keys(nodes))
      && (cb ==> |r.events| >= |nodes.entries| && r.events[..|nodes.entries|] == LStarts(Keys(nodes), x))
  {
    var n := LPar(name, nodes);
    var f := LFanIn(env, n, 0, x, cb, mode, Empty());
    LFanInReportsKeys(env, n, 0, x, cb, mode, Empty());
    var r := LInvoke(env, n, x, cb, mode);
    assert r.events == LNotify(cb, LStarts(Keys(nodes), x)) + f.events;
    forall e | e in r.events ensures e.node.Some? && e.node.value in Keys(nodes) {
      if e in LNotify(cb, LStarts(Keys(nodes), x)) {
        var i :| 0 <= i < |nodes.entries| && LStarts(Keys(nodes), x)[i] == e;
      }
    }
  }

  lemma {:induction false} LFanInReportsKeys(env: Env, n: LNode, i: nat, x: Value, cb: bool, mode: Mode, acc: Dict<Value>)
    requires n.LPar? && i <= |n.nodes.entries|
    ensures forall e :: e in LFanIn(env, n, i, x, cb, mode, acc).events ==> e.node.Some? && e.node.value in Keys(n.nodes)
    decreases |n.nodes.entries| - i
  {
    if i < |n.nodes.entries| {
      var c := LInvoke(env, n.nodes.entries[i].1, x, false, mode);
      if c.result.Ok? {
        LFanInReportsKeys(env, n, i + 1, x, cb, mode, Put(acc, n.nodes.entries[i].0, c.result.value));
        assert Keys(n.nodes)[i] == n.nodes.entries[i].0;
      }
    }
  }

  /** What a child of a Parralel returns: it is invoked on the raw input. */
  function LChild(env: Env, n: LNode, i: nat, x: Value, mode: Mode): LRun
    requires n.LPar? && i < |n.nodes.entries|
  {
    LInvoke(env, n.nodes.entries[i].1, x, false, mode)
  }

  /** When a Parralel returns, it returns a mapping holding exactly its keys,
      in order, each with what that child returned on the raw input. */
  lemma {:induction false} LFanInCollects(env: Env, n: LNode, i: nat, x: Value, cb: bool, mode: Mode, acc: Dict<Value>)
    requires n.LPar? && Valid(n.nodes) && i <= |n.nodes.entries|
    requires Keys(acc) == Keys(n.nodes)[..i]
    requires forall j :: 0 <= j < i ==> LChild(env, n, j, x, mode).result.Ok? && acc.entries[j].1 == LChild(env, n, j, x, mode).result.value
    ensures var r := LFanIn(env, n, i, x, cb, mode, acc);
      r.result.Ok? ==>
        && r.result.value.Mapping?
        && Keys(r.result.value.outputs) == Keys(n.nodes)
        && forall j :: 0 <= j < |n.nodes.entries| ==>
             LChild(env, n, j, x, mode).result.Ok? && r.result.value.outputs.entries[j].1 == LChild(env, n, j, x, mode).result.value
    decreases |n.nodes.entries| - i
  {
    if i == |n.nodes.entries| {
      assert Keys(n.nodes)[..i] == Keys(n.nodes);
    } else {
      var key := n.nodes.entries[i].0;
      var c := LChild(env, n, i, x, mode);
      if c.result.Ok? {
        var acc' := Put(acc, key, c.result.value);
        CollectNext(n.nodes, acc, i, c.result.value);
        assert acc'.entries == acc.entries + [(key, c.result.value)];
        LFanInCollects(env, n, i + 1, x, cb, mode, acc');
      }
    }
  }

  /** The whole Parralel: when it returns, it returns the mapping of its
      children's outputs keyed by name. */
  lemma ParallelCollects(env: Env, name: Option<string>, nodes: Dict<LNode>, x: Value, cb: bool, mode: Mode)
    requires Valid(nodes)
    ensures var n := LPar(name, nodes);
      var r := LInvoke(env, n, x, cb, mode);
      r.result.Ok? ==>
        && r.result.value.Mapping?
        && Keys(r.result.value.outputs) == Keys(nodes)
        && forall j :: 0 <= j < |nodes.entries| ==>
             LChild(env, n, j, x, mode).result.Ok? && r.result.value.outputs.entries[j].1 == LChild(env, n, j, x, mode).result.value
  {
    LFanInCollects(env, LPar(name, nodes), 0, x, cb, mode, Empty());
  }

  /** Every child of a Parralel at positions `i` up to `e` returns. */
  ghost predicate LChildrenSucceed(env: Env, n: LNode, i: nat, e: nat, x: Value, mode: Mode)
    requires n.LPar? && e <= |n.nodes.entries|
  {
    forall j :: i <= j < e ==> LChild(env, n, j, x, mode).result.Ok?
  }

  /** The `node_finish` calls for positions `i` up to `e`, in key order. */
  function LFinishes(env: Env, n: LNode, i: nat, e: nat, x: Value, mode: Mode): (es: seq<LEvent>)
    requires n.LPar? && i <= e <= |n.nodes.entries|
    requires LChildrenSucceed(env, n, i, e, x, mode)
    ensures |es| == e - i
    ensures forall j :: 0 <= j < |es| ==>
              es[j] == LFinish(Some(n.nodes.entries[i + j].0), LChild(env, n, i + j, x, mode).result.value)
    decreases e - i
  {
    if i == e then []
    else [LFinish(Some(n.nodes.entries[i].0), LChild(env, n, i, x, mode).result.value)] + LFinishes(env, n, i + 1, e, x, mode)
  }

  /** The collecting loop from `i` on, when every remaining child returns:
      it returns, reporting the finishes in key order. */
  lemma {:induction false} LFanInAllSucceed(env: Env, n: LNode, i: nat, x: Value, cb: bool, mode: Mode, acc: Dict<Value>)
    requires n.LPar? && i <= |n.nodes.entries|
    requires LChildrenSucceed(env, n, i, |n.nodes.entries|, x, mode)
    ensures var r := LFanIn(env, n, i, x, cb, mode, acc);
      r.result.Ok? && r.events == LNotify(cb, LFinishes(env, n, i, |n.nodes.entries|, x, mode))
  {
    LFanInAllReturns(env, n, i, x, cb, mode);
    LFanInAllFinishes(env, n, i, x, cb, mode);
  }

  /** The result half of LFanInAllSucceed. */
  lemma {:induction false} LFanInAllReturns(env: Env, n: LNode, i: nat, x: Value, cb: bool, mode: Mode)
    requires n.LPar? && i <= |n.nodes.entries|
    requires LChildrenSucceed(env, n, i, |n.nodes.entries|, x, mode)
    ensures forall acc :: LFanIn(env, n, i, x, cb, mode, acc).result.Ok?
    decreases |n.nodes.entries| - i
  {
    if i < |n.nodes.entries| {
      LFanInAllReturns(env, n, i + 1, x, cb, mode);
      var key, c := n.nodes.entries[i].0, LChild(env, n, i, x, mode);
      assert c.result.Ok?;
      forall acc: Dict<Value> ensures LFanIn(env, n, i, x, cb, mode, acc).result
                                      == LFanIn(env, n, i + 1, x, cb, mode, Put(acc, key, c.result.value)).result {
      }
    }
  }

  /** The events half of LFanInAllSucceed. */
  lemma {:induction false} LFanInAllFinishes(env: Env, n: LNode, i: nat, x: Value, cb: bool, mode: Mode)
    requires n.LPar? && i <= |n.nodes.entries|
    requires LChildrenSucceed(env, n, i, |n.nodes.entries|, x, mode)
    ensures forall acc :: LFanIn(env, n, i, x, cb, mode, acc).events == LNotify(cb, LFinishes(env, n, i, |n.nodes.entries|, x, mode))
    decreases |n.nodes.entries| - i
  {
    if i < |n.nodes.entries| {
      LFanInAllFinishes(env, n, i + 1, x, cb, mode);
      var key, c := n.nodes.entries[i].0, LChild(env, n, i, x, mode);
      assert c.result.Ok?;
      forall acc: Dict<Value> ensures LFanIn(env, n, i, x, cb, mode, acc).events
                                      == LNotify(cb, [LFinish(Some(key), c.result.value)]) + LFanIn(env, n, i + 1, x, cb, mode, Put(acc, key, c.result.value)).events {
      }
    }
  }

  /** Fan-out and fan-in of the legacy Parralel: when every child returns, it
      returns the mapping of their outputs keyed by name, and with a callback
      it reports all starts in key order, then all finishes in key order. */
  lemma ParallelAllSucceed(env: Env, name: Option<string>, nodes: Dict<LNode>, x: Value, cb: bool, mode: Mode)
    requires Valid(nodes) && LChildrenSucceed(env, LPar(name, nodes), 0, |nodes.entries|, x, mode)
    ensures var n := LPar(name, nodes);
      var r := LInvoke(env, n, x, cb, mode);
      && r.result.Ok? && r.result.value.Mapping?
      && Keys(r.result.value.outputs) == Keys(nodes)
      && (forall j :: 0 <= j < |nodes.entries| ==> r.result.value.outputs.entries[j].1 == LChild(env, n, j, x, mode).result.value)
      && r.events == LNotify(cb, LStarts(Keys(nodes), x) + LFinishes(env, n, 0, |nodes.entries|, x, mode))
  {
    var n := LPar(name, nodes);
    LFanInAllSucceed(env, n, 0, x, cb, mode, Empty());
    ParallelCollects(env, name, nodes, x, cb, mode);
  }

  /** The collecting loop raises the error of the first failing child at or
      after `i`, having reported the finishes of the children before it. */
  lemma {:induction false} LFanInFirstFailure(env: Env, n: LNode, i: nat, f: nat, x: Value, cb: bool, mode: Mode)
    requires n.LPar? && i <= f < |n.nodes.entries|
    requires LChildrenSucceed(env, n, i, f, x, mode)
    requires LChild(env, n, f, x, mode).result.Err?
    ensures forall acc :: var r := LFanIn(env, n, i, x, cb, mode, acc);
      r.result == LChild(env, n, f, x, mode).result && r.events == LNotify(cb, LFinishes(env, n, i, f, x, mode))
    decreases f - i
  {
    if i < f {
      LFanInFirstFailure(env, n, i + 1, f, x, cb, mode);
    }
    forall acc: Dict<Value> ensures var r := LFanIn(env, n, i, x, cb, mode, acc);
      r.result == LChild(env, n, f, x, mode).result && r.events == LNotify(cb, LFinishes(env, n, i, f, x, mode))
    {
      if i == f {
        LFanInFails(env, n, i, x, cb, mode, acc);
      } else {
        LFanInSkip(env, n, i, x, cb, mode, acc);
      }
    }
  }

  /** The collecting loop stops at a child that raises. */
  lemma LFanInFails(env: Env, n: LNode, i: nat, x: Value, cb: bool, mode: Mode, acc: Dict<Value>)
    requires n.LPar? && i < |n.nodes.entries|
    requires LChild(env, n, i, x, mode).result.Err?
    ensures LFanIn(env, n, i, x, cb, mode, acc) == LRun([], LChild(env, n, i, x, mode).result)
  {
  }

  /** Past a child that returns, the collecting loop reports its finish and
      goes on with its output collected. */
  lemma LFanInSkip(env: Env, n: LNode, i: nat, x: Value, cb: bool, mode: Mode, acc: Dict<Value>)
    requires n.LPar? && i < |n.nodes.entries|
    requires LChild(env, n, i, x, mode).result.Ok?
    ensures var v := LChild(env, n, i, x, mode).result.value;
      var key := n.nodes.entries[i].0;
      LFanIn(env, n, i, x, cb, mode, acc) == LPrepend(LNotify(cb, [LFinish(Some(key), v)]), LFanIn(env, n, i + 1, x, cb, mode, Put(acc, key, v)))
  {
  }

  /** A Parralel whose child at `f` is the first to raise raises that error,
      after reporting every start and the finishes of the children before `f`. */
  lemma ParallelFirstFailure(env: Env, name: Option<string>, nodes: Dict<LNode>, f: nat, x: Value, cb: bool, mode: Mode)
    requires f < |nodes.entries| && LChildrenSucceed(env, LPar(name, nodes), 0, f, x, mode)
    requires LChild(env, LPar(name, nodes), f, x, mode).result.Err?
    ensures var n := LPar(name, nodes);
      var r := LInvoke(env, n, x, cb, mode);
      r.result == LChild(env, n, f, x, mode).result
      && r.events == LNotify(cb, LStarts(Keys(nodes), x) + LFinishes(env, n, 0, f, x, mode))
  {
    LFanInFirstFailure(env, LPar(name, nodes), 0, f, x, cb, mode);
  }

  // ---------------------------------------------------------------------------
  // Findings.

  /** As written, a Parralel given a non-empty name has no name at all: a
      Recursive over it raises as soon as it reports the first start. */
  lemma ExplicitParallelNameLost(env: Env, nodes: Dict<LNode>, s: string, m: LNode, rname: Option<string>, maxIter: int, x: Value)
    requires s != "" && maxIter >= 0
    ensures LegacyParallelName(Keys(nodes), Some(s)) == None
    ensures var p := LPar(LegacyParallelName(Keys(nodes), Some(s)), nodes);
      LInvoke(env, LRec(rname, p, m, maxIter), x, true, Sync).result == Err(MissingName)
  {
    var p := LPar(LegacyParallelName(Keys(nodes), Some(s)), nodes);
    assert LStep(env, p, x, true).result == Err(MissingName);
  }

  /** As written, the legacy `Recursive.ainvoke` reads `response` before
      assigning it and so raises on every input. */
  lemma RecursiveAinvokeUnbound(env: Env, rname: Option<string>, m1: LNode, m2: LNode, maxIter: int, x: Value, cb: bool)
    ensures LInvoke(env, LRec(rname, m1, m2, maxIter), x, cb, Async) == LRun([], Err(Unbound("response")))
  {
  }

  // ---------------------------------------------------------------------------
  // The legacy Recursive against the current one.

  /** A leaf with an implemented `run` whose results are never a NodeOutput
      nor a mapping. */
  ghost predicate PlainLeaf(m: LNode) {
    m.LLeaf? && m.run.Some? && forall v :: !m.run.value(v).Output? && !m.run.value(v).Mapping?
  }

  /** A value that unwraps in one step. */
  predicate Plain(x: Value) {
    !x.Mapping? && (x.Output? ==> !x.content.Output? && !x.content.Mapping?)
  }

  /** The current leaf for a legacy one. */
  function Current(m: LNode): (n: Node)
    requires m.LLeaf?
    ensures n.Leaf? && n.name == m.name && n.run == m.run
  {
    Leaf(m.name, m.run, m.terminal)
  }

  /** On a plain value, a legacy step (which hands the raw value to the leaf)
      returns what a current step (which unwraps it first) returns, and its
      output is plain again. */
  lemma StepAgrees(env: Env, m: LNode, x: Value)
    requires PlainLeaf(m) && Plain(x)
    ensures LStep(env, m, x, false).result == Step(env, Current(m), x, false, NoRunId, Sync).result
    ensures LStep(env, m, x, false).result.Ok? && Plain(LStep(env, m, x, false).result.value)
  {
    assert GetContent(env, GetContent(env, x)) == GetContent(env, x);
    var v := m.run.value(GetContent(env, x));
    assert !v.Output? && !v.Mapping?;
  }

  lemma {:induction false} LoopAgrees(env: Env, l: LNode, name: string, x: Value, k: nat, j: nat)
    requires l.LRec? && PlainLeaf(l.node1) && PlainLeaf(l.node2) && Plain(x) && j < 2
    ensures LLoop(env, l, x, false, k, j).result
            == Loop(env, Rec(name, Current(l.node1), Current(l.node2), l.maxIter), x, false, NoRunId, Sync, k, j).result
    decreases k, 2 - j
  {
    if k > 0 {
      var n := Rec(name, Current(l.node1), Current(l.node2), l.maxIter);
      var m := if j == 0 then l.node1 else l.node2;
      StepAgrees(env, m, x);
      LoopStep(env, n, x, false, NoRunId, Sync, k, j);
      var s := LStep(env, m, x, false);
      if j == 0 {
        LoopAgrees(env, l, name, s.result.value, k, 1);
      }
      LoopAgrees(env, l, name, s.result.value, k - 1, 0);
    }
  }

  /** Over two plain leaves, the legacy Recursive returns what the current
      one returns, although it does not unwrap the value it hands on. */
  lemma RecursiveAgrees(env: Env, rname: Option<string>, m1: LNode, m2: LNode, maxIter: int, name: string, x: Value)
    requires PlainLeaf(m1) && PlainLeaf(m2) && Plain(x)
    ensures LInvoke(env, LRec(rname, m1, m2, maxIter), x, false, Sync).result
            == Nodes.Invoke(env, Rec(name, Current(m1), Current(m2), maxIter), x, false, NoRunId, Sync).result
  {
    LoopAgrees(env, LRec(rname, m1, m2, maxIter), name, x, Rounds(maxIter), 0);
  }
}
