/** SubGraph: a graph's walk exposed as a single node. It holds the graph's
    own list object, so nodes appended to the graph later run in it too. */
module SubGraphs {
  import opened Values
  import opened Nodes
  import opened NodeFacts
  import opened Graphs

  class SubGraph {
    var name: string
    const state: NodeList

    /** `SubGraph(graph, name)`: the list is shared, not copied. */
    constructor(graph: Graph, name: string)
      ensures this.name == name && state == graph.state
    {
      this.name := name;
      state := graph.state;
    }

    /** The node this object currently stands for. */
    function AsNode(): (n: Node)
      reads this, state
      ensures n.Sub? && n.name == name && n.state == state.items
    {
      Sub(name, state.items)
    }

    /** `set_name`. */
    method SetName(name: string)
      modifies this
      ensures this.name == name
    {
      this.name := name;
    }

    /** `invoke` / `ainvoke`: unwrap, invoke, stop at the first terminal
        output, and return the last output itself. Children are always
        called through `invoke`, with the callback and the keyword arguments. */
    method Invoke(env: Env, x: Value, cb: bool, rid: RunId, mode: Mode) returns (r: Run)
      ensures r == Nodes.Invoke(env, AsNode(), x, cb, rid, mode)
    {
      var ns := state.items;
      ghost var whole := Walk(env, ns, x, cb, rid, Sync);
      assert Nodes.Invoke(env, AsNode(), x, cb, rid, mode) == whole;
      var events: seq<Event> := [];
      var cur := x;
      var i := 0;
      while i < |ns|
        invariant 0 <= i <= |ns|
        invariant whole == Prepend(events, Walk(env, ns[i..], cur, cb, rid, Sync))
      {
        var c := Nodes.Invoke(env, ns[i], GetContent(env, cur), cb, rid, Sync);
        WalkAdvance(env, ns, i, cur, cb, rid, Sync, events);
        if c.result.Err? || CheckForBreak(env, c.result.value) {
          assert whole == Run(events + c.events, c.result);
          return Run(events + c.events, c.result);
        }
        events, cur := events + c.events, c.result.value;
        i := i + 1;
      }
      assert events + [] == events;
      r := Run(events, Ok(cur));
    }
  }

  /** Nodes appended to a graph after a SubGraph was built from it are part of
      the SubGraph. */
  method SubGraphSeesLaterNodes(a: Node, b: Node, name: string) returns (g: Graph, sg: SubGraph)
    ensures sg.AsNode() == Sub(name, [a, b])
  {
    g := AsGraph(a);
    sg := new SubGraph(g, name);
    g.Next(b);
  }

  /** An empty SubGraph returns its input unchanged and reports nothing. */
  lemma EmptySubGraph(env: Env, name: string, x: Value, cb: bool, rid: RunId, mode: Mode)
    ensures Invoke(env, Sub(name, []), x, cb, rid, mode) == Run([], Ok(x))
  {
  }

  /** A SubGraph reports no events of its own: over one node it is exactly
      that node's invocation on the unwrapped input. */
  lemma SubGraphOfOne(env: Env, name: string, n: Node, x: Value, cb: bool, rid: RunId, mode: Mode)
    ensures Invoke(env, Sub(name, [n]), x, cb, rid, mode) == Invoke(env, n, GetContent(env, x), cb, rid, Sync)
  {
    WalkOne(env, n, x, cb, rid, Sync);
  }

  /** A SubGraph returns the last output itself where a runner over the same
      nodes returns its `content`; both report the same node calls. */
  lemma SubGraphVersusRunner(env: Env, name: string, ns: seq<Node>, x: Value, cb: bool, flowId: string)
    ensures var s := Invoke(env, Sub(name, ns), x, cb, NoRunId, Sync);
      var f := RunFlow(env, ns, x, cb, flowId, Sync);
      && (s.result.Err? ==> f.result == s.result)
      && (s.result.Ok? ==> f.result == ContentOf(s.result.value))
      && Lift(s.events) == (if cb then f.calls[1..1 + |s.events|] else [])
  {
    var s := Invoke(env, Sub(name, ns), x, cb, NoRunId, Sync);
    var f := RunFlow(env, ns, x, cb, flowId, Sync);
    if cb {
      var end := if s.result.Ok? then [FlowEnd(flowId, s.result.value)] else [];
      assert f.calls == [FlowStart(flowId, x)] + Lift(s.events) + end;
      assert f.calls[1..1 + |s.events|] == Lift(s.events);
    } else {
      assert Lift([]) == [];
    }
  }
}
