/** Graph, the ordered list of nodes a flow runs through, and GraphRunner,
    which walks that list: unwrap the last output, invoke the next node, stop
    at the first terminal output, and frame the walk with `flow_start` and
    `flow_end` calls on the callback. */
module Graphs {
  import opened Values
  import opened Text
  import opened Nodes
  import opened NodeFacts

  /** The Python list `_state`: a Graph and every SubGraph built from it share
      the same list object. */
  class NodeList {
    var items: seq<Node>

    constructor()
      ensures items == []
    {
      items := [];
    }

    /** `list.append`. */
    method Append(n: Node)
      modifies this
      ensures items == old(items) + [n]
    {
      items := items + [n];
    }
  }

  /** One call on the callback object during a flow. */
  datatype Call =
    | FlowStart(ref: string, inputs: Value)
    | FlowEnd(ref: string, outputs: Value)
    | NodeCall(event: Event)

  /** The calls on the callback during a flow, and what the flow returned or raised. */
  datatype Flow = Flow(calls: seq<Call>, result: Result<Value>)

  function Lift(es: seq<Event>): (cs: seq<Call>)
    ensures |cs| == |es|
    ensures forall i :: 0 <= i < |es| ==> cs[i] == NodeCall(es[i])
  {
    seq(|es|, i requires 0 <= i < |es| => NodeCall(es[i]))
  }

  /** `GraphRunner.invoke` (mode Sync) and `ainvoke` (mode Async) on the nodes
      `ns`, with `flowId` the value `create_run_id()` returned. Top-level nodes
      get the callback but no run id; `flow_end` is reported only when no node
      raised, and the flow returns the `content` of the last output. */
  function RunFlow(env: Env, ns: seq<Node>, x: Value, cb: bool, flowId: string, mode: Mode): (f: Flow)
    ensures !cb ==> f.calls == []
    ensures cb ==> |f.calls| > 0 && f.calls[0] == FlowStart(flowId, x)
    ensures f.result.Ok? ==> Walk(env, ns, x, cb, NoRunId, mode).result.Ok?
  {
    var start := if cb then [FlowStart(flowId, x)] else [];
    var w := Walk(env, ns, x, cb, NoRunId, mode);
    if w.result.Err? then Flow(start + Lift(w.events), w.result)
    else Flow(start + Lift(w.events) + (if cb then [FlowEnd(flowId, w.result.value)] else []), ContentOf(w.result.value))
  }

  class Graph {
    const state: NodeList
    var compiled: bool

    constructor()
      ensures fresh(state) && state.items == [] && !compiled
    {
      state := new NodeList();
      compiled := false;
    }

    /** `next`: append a node to the flow. */
    method Next(n: Node)
      modifies state
      ensures state.items == old(state.items) + [n]
    {
      state.Append(n);
    }

    /** `graph | node`: append and return the same graph. */
    method Or(n: Node) returns (g: Graph)
      modifies state
      ensures g == this
      ensures state.items == old(state.items) + [n]
    {
      Next(n);
      g := this;
    }

    /** `str(graph)`. */
    function Str(): (s: string)
      reads this, state
      ensures |state.items| == 0 ==> s == ""
    {
      Strip(DropLast3(Pieces(Reprs(state.items))))
    }

    /** `compile`: without Ray, a runner over the SAME list object; with Ray,
        a deployment, at most once per graph. */
    method Compile(useRay: bool, callback: bool) returns (r: Result<Compiled>)
      modifies this
      ensures !useRay ==> r.Ok? && r.value.Local? && fresh(r.value.runner)
                          && r.value.runner.nodes == state && r.value.runner.callback == callback
                          && compiled == old(compiled)
      ensures useRay && old(compiled) ==> r == Err(AlreadyCompiled) && compiled
      ensures useRay && !old(compiled) ==> r == Ok(Deployed) && compiled
    {
      if !useRay {
        var runner := new GraphRunner(state, callback);
        return Ok(Local(runner));
      }
      if compiled {
        return Err(AlreadyCompiled);
      }
      compiled := true;
      r := Ok(Deployed);
    }
  }

  /** What `compile` returns: a local runner, or a Ray deployment handle, whose
      behaviour is not part of this model. */
  datatype Compiled = Local(runner: GraphRunner) | Deployed

  /** The repr of every node, in order. */
  function Reprs(ns: seq<Node>): (rs: seq<string>)
    ensures |rs| == |ns|
    ensures forall i :: 0 <= i < |ns| ==> rs[i] == Repr(ns[i])
  {
    seq(|ns|, i requires 0 <= i < |ns| => Repr(ns[i]))
  }

  /** `"".join([f" {r} ->" for r in rs])`. */
  function Pieces(rs: seq<string>): string {
    if |rs| == 0 then "" else Pieces(rs[..|rs| - 1]) + " " + rs[|rs| - 1] + " ->"
  }

  class GraphRunner {
    const nodes: NodeList
    const callback: bool

    constructor(nodes: NodeList, callback: bool)
      ensures this.nodes == nodes && this.callback == callback
    {
      this.nodes := nodes;
      this.callback := callback;
    }

    /** `invoke` / `ainvoke`: the loop over the nodes, stopping at the first
        terminal output. */
    method Invoke(env: Env, x: Value, flowId: string, mode: Mode) returns (r: Flow)
      ensures r == RunFlow(env, nodes.items, x, callback, flowId, mode)
    {
      var ns := nodes.items;
      ghost var whole := Walk(env, ns, x, callback, NoRunId, mode);
      var start := if callback then [FlowStart(flowId, x)] else [];
      var events: seq<Event> := [];
      var cur := x;
      var i := 0;
      while i < |ns|
        invariant 0 <= i <= |ns|
        invariant whole == Prepend(events, Walk(env, ns[i..], cur, callback, NoRunId, mode))
      {
        var c := Nodes.Invoke(env, ns[i], GetContent(env, cur), callback, NoRunId, mode);
        WalkAdvance(env, ns, i, cur, callback, NoRunId, mode, events);
        if c.result.Err? {
          assert whole == Run(events + c.events, c.result);
          return Flow(start + Lift(events + c.events), c.result);
        }
        events, cur := events + c.events, c.result.value;
        if CheckForBreak(env, cur) {
          assert whole == Run(events, Ok(cur));
          break;
        }
        i := i + 1;
      }
      assert whole == Run(events, Ok(cur)) by {
        if i == |ns| {
          assert events + [] == events;
        }
      }
      var end := if callback then [FlowEnd(flowId, cur)] else [];
      r := Flow(start + Lift(events) + end, ContentOf(cur));
    }
  }

  /** `node_a | node_b`: a new graph holding the two nodes. */
  method Chain(a: Node, b: Node) returns (g: Graph)
    ensures fresh(g) && fresh(g.state) && g.state.items == [a, b] && !g.compiled
  {
    g := new Graph();
    g.Next(a);
    g.Next(b);
  }

  /** `node.as_graph()`: a new graph holding the node alone. */
  method AsGraph(a: Node) returns (g: Graph)
    ensures fresh(g) && fresh(g.state) && g.state.items == [a] && !g.compiled
  {
    g := new Graph();
    g.Next(a);
  }
}
