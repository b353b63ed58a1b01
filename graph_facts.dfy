/** Properties of a flow: the framing by `flow_start`/`flow_end`, the order
    of the walk and its early stop, what the flow returns, and the agreement
    of `invoke` and `ainvoke`. */
module GraphFacts {
  import opened Dicts
  import opened Values
  import opened Text
  import opened Nodes
  import opened NodeFacts
  import opened Graphs

  /** `flow_start` comes first and only once; `flow_end` comes last, only once,
      and only when no node raised, carrying the last output; both carry the
      flow's run id. In between come exactly the node calls of the walk. The
      flow returns the content of the last output, which must be a NodeOutput. */
  lemma FlowFraming(env: Env, ns: seq<Node>, x: Value, cb: bool, flowId: string, mode: Mode)
    ensures var f := RunFlow(env, ns, x, cb, flowId, mode);
      var w := Walk(env, ns, x, cb, NoRunId, mode);
      && (!cb ==> f.calls == [])
      && (cb ==> |f.calls| > 0 && f.calls[0] == FlowStart(flowId, x))
      && (forall i :: 0 < i < |f.calls| ==> !f.calls[i].FlowStart?)
      && (forall i :: 0 <= i < |f.calls| && f.calls[i].FlowEnd? ==> i == |f.calls| - 1 && w.result.Ok?)
      && (cb && w.result.Ok? ==> f.calls[|f.calls| - 1] == FlowEnd(flowId, w.result.value))
      && (cb ==> f.calls[1..1 + |w.events|] == Lift(w.events))
      && (cb ==> |f.calls| == 1 + |w.events| + (if w.result.Ok? then 1 else 0))
      && (f.result.Ok? <==> w.result.Ok? && w.result.value.Output?)
      && (f.result.Ok? ==> f.result.value == w.result.value.content)
      && (w.result.Err? ==> f.result == w.result)
  {
    var f := RunFlow(env, ns, x, cb, flowId, mode);
    var w := Walk(env, ns, x, cb, NoRunId, mode);
    if cb {
      var end := if w.result.Ok? then [FlowEnd(flowId, w.result.value)] else [];
      assert f.calls == [FlowStart(flowId, x)] + Lift(w.events) + end;
      assert f.calls[1..1 + |w.events|] == Lift(w.events);
    }
  }

  /** Nodes after the first terminal output (or the first error) are never
      invoked: appending nodes to such a graph changes nothing in its flow. */
  lemma FlowStopsAtTerminal(env: Env, ns: seq<Node>, rest: seq<Node>, x: Value, cb: bool, flowId: string, mode: Mode)
    requires |ns| > 0 && Stopped(env, Walk(env, ns, x, cb, NoRunId, mode))
    ensures RunFlow(env, ns + rest, x, cb, flowId, mode) == RunFlow(env, ns, x, cb, flowId, mode)
  {
    WalkSplit(env, ns, rest, x, cb, NoRunId, mode);
  }

  /** Nodes run in list order: when the walk over `ns` has not stopped, the
      next node receives the unwrapped content of the last output, and the
      flow over `ns + [n]` reports the calls of `ns` and then those of `n`. */
  lemma FlowAppend(env: Env, ns: seq<Node>, n: Node, x: Value, cb: bool, flowId: string, mode: Mode)
    requires |ns| == 0 || !Stopped(env, Walk(env, ns, x, cb, NoRunId, mode))
    ensures var w := Walk(env, ns, x, cb, NoRunId, mode);
      var c := Invoke(env, n, GetContent(env, w.result.value), cb, NoRunId, mode);
      && w.result.Ok?
      && Walk(env, ns + [n], x, cb, NoRunId, mode) == Prepend(w.events, c)
      && RunFlow(env, ns + [n], x, cb, flowId, mode).result == (if c.result.Err? then c.result else ContentOf(c.result.value))
  {
    var w := Walk(env, ns, x, cb, NoRunId, mode);
    WalkSplit(env, ns, [n], x, cb, NoRunId, mode);
    WalkOne(env, n, w.result.value, cb, NoRunId, mode);
  }

  /** An empty graph returns `x.content`, which raises unless the input is a
      NodeOutput; only the two flow events are reported. */
  lemma EmptyFlow(env: Env, x: Value, cb: bool, flowId: string, mode: Mode)
    ensures RunFlow(env, [], x, cb, flowId, mode)
            == Flow(if cb then [FlowStart(flowId, x), FlowEnd(flowId, x)] else [],
                    if x.Output? then Ok(x.content) else Err(NoContent(x)))
  {
    assert Lift([]) == [];
  }

  /** A flow whose last node is a Parallel that returns its mapping fails at
      `.content`, after `flow_end` has been reported. */
  lemma FlowEndingInParallelFails(env: Env, ns: seq<Node>, p: Node, x: Value, cb: bool, flowId: string, mode: Mode)
    requires |ns| == 0 || !Stopped(env, Walk(env, ns, x, cb, NoRunId, mode))
    requires p.Par?
    requires Invoke(env, p, GetContent(env, Walk(env, ns, x, cb, NoRunId, mode).result.value), cb, NoRunId, mode).result.Ok?
    ensures RunFlow(env, ns + [p], x, cb, flowId, mode).result.Err?
  {
    FlowAppend(env, ns, p, x, cb, flowId, mode);
    var w := Walk(env, ns, x, cb, NoRunId, mode);
    FanInMapping(env, p, 0, GetContent(env, w.result.value), cb, NoRunId, mode, Empty());
  }

  /** What a Parallel returns, when it returns, is a mapping. */
  lemma {:induction false} FanInMapping(env: Env, n: Node, i: nat, x: Value, cb: bool, rid: RunId, mode: Mode, acc: Dict<Value>)
    requires n.Par? && i <= |n.nodes.entries|
    ensures FanIn(env, n, i, x, cb, rid, mode, acc).result.Ok? ==> FanIn(env, n, i, x, cb, rid, mode, acc).result.value.Mapping?
    decreases |n.nodes.entries| - i
  {
    if i < |n.nodes.entries| {
      var c := Child(env, n, i, x, cb, rid, mode);
      if c.result.Ok? {
        FanInStep(env, n, i, x, cb, rid, mode, acc);
        FanInMapping(env, n, i + 1, x, cb, rid, mode, Put(acc, n.nodes.entries[i].0, c.result.value));
      }
    }
  }

  /** `ainvoke` returns what `invoke` returns, with or without a callback. */
  lemma FlowResultIndependent(env: Env, ns: seq<Node>, x: Value, cb: bool, flowId: string, mode: Mode)
    ensures RunFlow(env, ns, x, cb, flowId, mode).result == RunFlow(env, ns, x, false, flowId, Sync).result
  {
    WalkResultIndependent(env, ns, x, cb, NoRunId, mode);
  }

  // ---------------------------------------------------------------------------
  // Rendering.

  lemma {:induction false} PiecesJoin(rs: seq<string>)
    requires |rs| > 0
    ensures Pieces(rs) == " " + Join(rs, " -> ") + " ->"
  {
    var init := rs[..|rs| - 1];
    var last := rs[|rs| - 1];
    if |init| == 0 {
      assert rs == [last];
    } else {
      PiecesJoin(init);
      assert rs == init + [last];
      JoinSnoc(init, last, " -> ");
    }
  }

  /** The first item starts the joined string and the last one ends it. */
  lemma {:induction false} JoinEnds(rs: seq<string>, sep: string)
    requires |rs| > 0
    ensures |Join(rs, sep)| >= |rs[0]| && Join(rs, sep)[..|rs[0]|] == rs[0]
    ensures |Join(rs, sep)| >= |rs[|rs| - 1]| && Join(rs, sep)[|Join(rs, sep)| - |rs[|rs| - 1]|..] == rs[|rs| - 1]
  {
    if |rs| > 1 {
      var init := rs[..|rs| - 1];
      assert rs == init + [rs[|rs| - 1]];
      JoinSnoc(init, rs[|rs| - 1], sep);
    }
  }

  /** `str(graph)` is the reprs joined by `" -> "` when the first and last reprs
      have no white space at their ends; the empty graph renders as `""`. */
  lemma RenderJoinsReprs(rs: seq<string>)
    requires |rs| == 0 || (Trimmed(rs[0]) && Trimmed(rs[|rs| - 1]))
    ensures Strip(DropLast3(Pieces(rs))) == Join(rs, " -> ")
  {
    if |rs| > 0 {
      var j := Join(rs, " -> ");
      PiecesJoin(rs);
      JoinEnds(rs, " -> ");
      assert j[0] == rs[0][0];
      assert j[|j| - 1] == rs[|rs| - 1][|rs[|rs| - 1]| - 1];
      assert DropLast3(Pieces(rs)) == " " + j;
      StripPadded(j);
    }
  }

  /** The repr of a composite node has no white space at its ends. */
  lemma CompositeReprTrimmed(n: Node)
    requires !n.Leaf?
    ensures Trimmed(Repr(n))
  {
  }

  /** `str(graph)` of a graph object. */
  lemma GraphStr(g: Graph)
    requires forall i :: 0 <= i < |g.state.items| ==> Trimmed(Repr(g.state.items[i]))
    ensures g.Str() == Join(Reprs(g.state.items), " -> ")
  {
    RenderJoinsReprs(Reprs(g.state.items));
  }

  // ---------------------------------------------------------------------------
  // Graph objects.

  /** A runner compiled without Ray shares the graph's list: nodes appended
      after `compile` are walked too. */
  method CompileSharesList(a: Node, b: Node, callback: bool) returns (g: Graph, runner: GraphRunner)
    ensures runner.nodes == g.state && g.state.items == [a, b]
  {
    g := AsGraph(a);
    var r := g.Compile(false, callback);
    runner := r.value.runner;
    g.Next(b);
  }

  /** `compile(use_ray=True)` succeeds once and raises the second time. */
  method CompileTwice(g: Graph) returns (first: Result<Compiled>, second: Result<Compiled>)
    requires !g.compiled
    modifies g
    ensures first == Ok(Deployed) && second == Err(AlreadyCompiled) && g.compiled
  {
    first := g.Compile(true, true);
    second := g.Compile(true, true);
  }
}
