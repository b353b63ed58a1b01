/** Two end-to-end scenarios: a two-step graph and a Recursive that stops
    on a terminal output. */
module Scenarios {
  import opened Values
  import opened Nodes
  import opened NodeFacts
  import opened Graphs
  import opened Recursives

  function Increment(v: Value): Value { if v.Int? then Int(v.i + 1) else Nil }
  function Double(v: Value): Value { if v.Int? then Int(2 * v.i) else Nil }

  /** The graph [Increment, Double] on 3 returns 8: Increment receives 3,
      Double receives the unwrapped 4; `flow_start` and `flow_end` are
      reported once each, `node_start` and `node_finish` once per node. */
  lemma IncrementThenDouble(env: Env, flowId: string)
    ensures RunFlow(env, [DefaultLeaf("Increment", Increment), DefaultLeaf("Double", Double)], Int(3), true, flowId, Sync)
            == Flow([FlowStart(flowId, Int(3)),
                     NodeCall(NodeStart("Increment", Int(3), NoRunId)),
                     NodeCall(NodeFinish("Increment", Output(Int(4), false), NoRunId)),
                     NodeCall(NodeStart("Double", Int(4), NoRunId)),
                     NodeCall(NodeFinish("Double", Output(Int(8), false), NoRunId)),
                     FlowEnd(flowId, Output(Int(8), false))],
                    Ok(Int(8)))
  {
    var inc := DefaultLeaf("Increment", Increment);
    var dbl := DefaultLeaf("Double", Double);
    WalkSplit(env, [inc], [dbl], Int(3), true, NoRunId, Sync);
    WalkOne(env, inc, Int(3), true, NoRunId, Sync);
    WalkOne(env, dbl, Output(Int(4), false), true, NoRunId, Sync);
    assert [inc] + [dbl] == [inc, dbl];
  }

  /** Returns its input, terminal once the input is 3. */
  function Identity(v: Value): Value { v }
  predicate IsThree(v: Value) { v == Int(3) }

  /** `Recursive(Increment, Stopper, max_iter=3)`. */
  function Counter(): (r: Node)
    ensures r.Rec? && r.maxIter == 3
  {
    MakeRecursive(DefaultLeaf("Increment", Increment), Leaf("Stopper", Some(Identity), IsThree), 3, None)
  }

  /** From a value holding `i` < 3, with at least `3 - i` rounds left,
      Counter counts up to 3 and stops there with a terminal output. */
  lemma {:induction false} CounterReachesThree(env: Env, x: Value, i: int, k: nat)
    requires GetContent(env, x) == Int(i) && i < 3 && k >= 3 - i
    ensures Loop(env, Counter(), x, false, NoRunId, Sync, k, 0).result == Ok(Output(Int(3), true))
    decreases 3 - i
  {
    var c := Counter();
    LoopStep(env, c, x, false, NoRunId, Sync, k, 0);
    var y := Output(Int(i + 1), false);
    LoopStep(env, c, y, false, NoRunId, Sync, k, 1);
    if i + 1 < 3 {
      CounterReachesThree(env, y, i + 1, k - 1);
    }
  }

  /** Recursive(Increment, Stopper, max_iter=3) from 0: Increment gives 1, 2,
      3 in turn and never a terminal output; Stopper passes 1 and 2 on and
      returns a terminal output on 3, in the third round's second (last)
      sub-invocation, and the loop returns that output. */
  lemma IncrementUntilThree(env: Env)
    ensures Invoke(env, Counter(), Int(0), false, NoRunId, Sync).result == Ok(Output(Int(3), true))
  {
    CounterReachesThree(env, Int(0), 0, Rounds(3));
  }
}
