/** Recursive: a bounded loop alternating two nodes, left early on the first
    terminal output. `Alternate` is an independent reference for the
    alternation: the chain of sub-invocations with no rounds and no bound. */
module Recursives {
  import opened Values
  import opened Nodes
  import opened NodeFacts

  class Recursive {
    var name: string
    const node1: Node
    const node2: Node
    const maxIter: int

    /** `Recursive(node1, node2, max_iter=3, name=None)`. */
    constructor(node1: Node, node2: Node, maxIter: int, name: Option<string>)
      ensures AsNode() == MakeRecursive(node1, node2, maxIter, name)
    {
      this.node1 := node1;
      this.node2 := node2;
      this.maxIter := maxIter;
      this.name := if name.None? then "recursive_" + node1.name + "_" + node2.name else name.value;
    }

    /** The node this object currently stands for. */
    function AsNode(): (n: Node)
      reads this
      ensures n.Rec? && n.name == name && n.node1 == node1 && n.node2 == node2 && n.maxIter == maxIter
    {
      Rec(name, node1, node2, maxIter)
    }

    /** `set_name`. */
    method SetName(name: string)
      modifies this
      ensures this.name == name
    {
      this.name := name;
    }

    /** The body of the inner `for`: unwrap, report the start, invoke the
        sub-node with the callback and the keyword arguments, report the
        finish (only when it returned). */
    method SubInvoke(env: Env, m: Node, x: Value, cb: bool, rid: RunId, mode: Mode) returns (s: Run)
      ensures s == Step(env, m, x, cb, rid, mode)
    {
      var input := GetContent(env, x);
      var shown := if mode == Async then Builtin("input") else input;
      var start := Notify(cb, [NodeStart(m.name, shown, NoRunId)]);
      var c := Nodes.Invoke(env, m, input, cb, rid, mode);
      if c.result.Err? {
        return Prepend(start, c);
      }
      s := Run(start + c.events + Notify(cb, [NodeFinish(m.name, c.result.value, NoRunId)]), c.result);
    }

    /** One pass of the inner `for` over node1 and node2, with `k` rounds
        left: the events it reported, what the last sub-node returned or
        raised, and the output that made it break, if any. */
    method Round(env: Env, x: Value, cb: bool, rid: RunId, mode: Mode, k: nat) returns (events: seq<Event>, res: Result<Value>, stop: Option<Value>)
      requires k > 0
      ensures var whole := Loop(env, AsNode(), x, cb, rid, mode, k, 0);
        && (res.Err? ==> whole == Run(events, res))
        && (res.Ok? && stop.Some? && Truthy(stop.value) ==> whole == Run(events, res))
        && (res.Ok? && !(stop.Some? && Truthy(stop.value)) ==>
              whole == Prepend(events, Loop(env, AsNode(), res.value, cb, rid, mode, k - 1, 0)))
        && (stop.Some? ==> res == Ok(stop.value))
    {
      var self := AsNode();
      events, stop := [], None;
      var cur := x;
      var j := 0;
      while j < 2
        invariant 0 <= j <= 2 && stop.None?
        invariant j < 2 ==> Loop(env, self, x, cb, rid, mode, k, 0) == Prepend(events, Loop(env, self, cur, cb, rid, mode, k, j))
        invariant j == 2 ==> Loop(env, self, x, cb, rid, mode, k, 0) == Prepend(events, Loop(env, self, cur, cb, rid, mode, k - 1, 0))
      {
        var s := SubInvoke(env, if j == 0 then node1 else node2, cur, cb, rid, mode);
        LoopAdvance(env, self, cur, cb, rid, mode, k, j, events);
        if s.result.Err? {
          return events + s.events, s.result, None;
        }
        events, cur := events + s.events, s.result.value;
        if CheckForBreak(env, cur) {
          return events, Ok(cur), Some(cur);
        }
        j := j + 1;
      }
      res := Ok(cur);
    }

    /** `invoke` / `ainvoke`: `while not response and n <= max_iter`, a
        round at a time. */
    method Invoke(env: Env, x: Value, cb: bool, rid: RunId, mode: Mode) returns (r: Run)
      ensures r == Nodes.Invoke(env, AsNode(), x, cb, rid, mode)
    {
      var self := AsNode();
      ghost var whole := Nodes.Invoke(env, self, x, cb, rid, mode);
      var response: Option<Value> := None;
      var events: seq<Event> := [];
      var cur := x;
      var n := 0;
      while (response.None? || !Truthy(response.value)) && n <= maxIter
        invariant 0 <= n <= Rounds(maxIter)
        invariant response.Some? && Truthy(response.value) ==> whole == Run(events, Ok(cur))
        invariant !(response.Some? && Truthy(response.value)) ==>
                    whole == Prepend(events, Loop(env, self, cur, cb, rid, mode, Rounds(maxIter) - n, 0))
        decreases Rounds(maxIter) - n
      {
        var k := Rounds(maxIter) - n;
        var evs, res, stop := Round(env, cur, cb, rid, mode, k);
        if res.Err? {
          return Run(events + evs, res);
        }
        if !(stop.Some? && Truthy(stop.value)) {
          ConcatAssoc(events, evs, Loop(env, self, res.value, cb, rid, mode, k - 1, 0).events);
        }
        events, cur := events + evs, res.value;
        if stop.Some? {
          response := stop;
        }
        n := n + 1;
      }
      if !(response.Some? && Truthy(response.value)) {
        assert Rounds(maxIter) - n == 0;
        assert events + [] == events;
      }
      r := Run(events, Ok(cur));
    }
  }

  /** One sub-invocation of the loop, as `Loop` takes it. */
  lemma LoopStep(env: Env, self: Node, x: Value, cb: bool, rid: RunId, mode: Mode, k: nat, j: nat)
    requires self.Rec? && j < 2 && k > 0
    ensures var m := if j == 0 then self.node1 else self.node2;
      var s := Step(env, m, x, cb, rid, mode);
      && s == (var input := GetContent(env, x);
               var start := Notify(cb, [NodeStart(m.name, if mode == Async then Builtin("input") else input, NoRunId)]);
               var c := Invoke(env, m, input, cb, rid, mode);
               if c.result.Err? then Prepend(start, c)
               else Run(start + c.events + Notify(cb, [NodeFinish(m.name, c.result.value, NoRunId)]), c.result))
      && Loop(env, self, x, cb, rid, mode, k, j)
         == if s.result.Err? || (CheckForBreak(env, s.result.value) && Truthy(s.result.value)) then s
            else if CheckForBreak(env, s.result.value) || j == 1 then Prepend(s.events, Loop(env, self, s.result.value, cb, rid, mode, k - 1, 0))
            else Prepend(s.events, Loop(env, self, s.result.value, cb, rid, mode, k, 1))
  {
  }

  /** One sub-invocation seen from the loop's caller: what has been reported
      so far followed by the rest of the loop. */
  lemma LoopAdvance(env: Env, self: Node, x: Value, cb: bool, rid: RunId, mode: Mode, k: nat, j: nat, events: seq<Event>)
    requires self.Rec? && j < 2 && k > 0
    ensures var s := Step(env, Phase(self, j), x, cb, rid, mode);
      var whole := Prepend(events, Loop(env, self, x, cb, rid, mode, k, j));
      && (s.result.Err? ==> whole == Run(events + s.events, s.result))
      && (s.result.Ok? && CheckForBreak(env, s.result.value) && Truthy(s.result.value) ==> whole == Run(events + s.events, s.result))
      && (s.result.Ok? && !(CheckForBreak(env, s.result.value) && Truthy(s.result.value)) ==>
            whole == Prepend(events + s.events,
                             if CheckForBreak(env, s.result.value) || j == 1 then Loop(env, self, s.result.value, cb, rid, mode, k - 1, 0)
                             else Loop(env, self, s.result.value, cb, rid, mode, k, 1)))
  {
    LoopStep(env, self, x, cb, rid, mode, k, j);
    var s := Step(env, Phase(self, j), x, cb, rid, mode);
    if s.result.Ok? && !(CheckForBreak(env, s.result.value) && Truthy(s.result.value)) {
      var rest := if CheckForBreak(env, s.result.value) || j == 1 then Loop(env, self, s.result.value, cb, rid, mode, k - 1, 0)
                  else Loop(env, self, s.result.value, cb, rid, mode, k, 1);
      ConcatAssoc(events, s.events, rest.events);
    }
  }

  // ---------------------------------------------------------------------------
  // The alternation as a reference.

  /** The node the loop invokes in phase `j`. */
  function Phase(self: Node, j: nat): Node
    requires self.Rec? && j < 2
  {
    if j == 0 then self.node1 else self.node2
  }

  /** `h` sub-invocations in strict alternation from phase `j`, each on the
      output of the previous one, stopping only at an error. */
  function Alternate(env: Env, self: Node, x: Value, cb: bool, rid: RunId, mode: Mode, j: nat, h: nat): (r: Run)
    requires self.Rec? && j < 2
    ensures h == 0 ==> r == Run([], Ok(x))
    decreases h
  {
    if h == 0 then Run([], Ok(x))
    else
      var s := Step(env, Phase(self, j), x, cb, rid, mode);
      if s.result.Err? then s
      else Prepend(s.events, Alternate(env, self, s.result.value, cb, rid, mode, 1 - j, h - 1))
  }

  /** The first `h` sub-invocations from phase `j` all return a non-terminal output. */
  ghost predicate Quiet(env: Env, self: Node, x: Value, cb: bool, rid: RunId, mode: Mode, j: nat, h: nat)
    requires self.Rec? && j < 2
    decreases h
  {
    h == 0 ||
    (var s := Step(env, Phase(self, j), x, cb, rid, mode);
     s.result.Ok? && !CheckForBreak(env, s.result.value) && Quiet(env, self, s.result.value, cb, rid, mode, 1 - j, h - 1))
  }

  /** A sub-invocation that ends the loop: it raises, or its output is
      terminal (and truthy, as `while not response` reads it). */
  ghost predicate Ends(env: Env, s: Run) {
    s.result.Err? || (CheckForBreak(env, s.result.value) && Truthy(s.result.value))
  }

  /** With no terminal output, the loop over `k` rounds from phase `j` makes
      all `2k - j` sub-invocations in strict alternation. */
  lemma {:induction false} LoopRunsAll(env: Env, self: Node, x: Value, cb: bool, rid: RunId, mode: Mode, k: nat, j: nat)
    requires self.Rec? && j < 2 && 2 * k >= j
    requires Quiet(env, self, x, cb, rid, mode, j, 2 * k - j)
    ensures Loop(env, self, x, cb, rid, mode, k, j) == Alternate(env, self, x, cb, rid, mode, j, 2 * k - j)
    decreases k, 2 - j
  {
    if k > 0 {
      var s := Step(env, Phase(self, j), x, cb, rid, mode);
      var k' := if j == 0 then k else k - 1;
      QuietStep(env, self, x, cb, rid, mode, k, j, 2 * k - j);
      LoopRunsAll(env, self, s.result.value, cb, rid, mode, k', 1 - j);
    }
  }

  /** A quiet sub-invocation moves the loop and the alternation on together. */
  lemma QuietStep(env: Env, self: Node, x: Value, cb: bool, rid: RunId, mode: Mode, k: nat, j: nat, h: nat)
    requires self.Rec? && j < 2 && k > 0 && h > 0
    requires Quiet(env, self, x, cb, rid, mode, j, h)
    ensures var s := Step(env, Phase(self, j), x, cb, rid, mode);
      && s.result.Ok? && !CheckForBreak(env, s.result.value)
      && Quiet(env, self, s.result.value, cb, rid, mode, 1 - j, h - 1)
      && Loop(env, self, x, cb, rid, mode, k, j)
         == Prepend(s.events, Loop(env, self, s.result.value, cb, rid, mode, if j == 0 then k else k - 1, 1 - j))
      && Alternate(env, self, x, cb, rid, mode, j, h)
         == Prepend(s.events, Alternate(env, self, s.result.value, cb, rid, mode, 1 - j, h - 1))
  {
    LoopStep(env, self, x, cb, rid, mode, k, j);
  }

  /** The loop ends at the `h`-th sub-invocation when the ones before it
      were quiet and it ends the loop, even in the middle of a round; what
      it returned or raised is what the Recursive returns or raises. */
  lemma {:induction false} LoopStopsAt(env: Env, self: Node, x: Value, cb: bool, rid: RunId, mode: Mode, k: nat, j: nat, h: nat)
    requires self.Rec? && j < 2 && 1 <= h && h + j <= 2 * k
    requires Quiet(env, self, x, cb, rid, mode, j, h - 1)
    requires Alternate(env, self, x, cb, rid, mode, j, h - 1).result.Ok?
    requires Ends(env, Step(env, Phase(self, (j + h - 1) % 2), Alternate(env, self, x, cb, rid, mode, j, h - 1).result.value, cb, rid, mode))
    ensures Loop(env, self, x, cb, rid, mode, k, j) == Alternate(env, self, x, cb, rid, mode, j, h)
    decreases h
  {
    if h == 1 {
      LoopEndsHere(env, self, x, cb, rid, mode, k, j);
    } else {
      var s := Step(env, Phase(self, j), x, cb, rid, mode);
      QuietStep(env, self, x, cb, rid, mode, k, j, h - 1);
      AlternateStep(env, self, x, cb, rid, mode, j, h);
      assert (1 - j + (h - 1) - 1) % 2 == (j + h - 1) % 2;
      LoopStopsAt(env, self, s.result.value, cb, rid, mode, if j == 0 then k else k - 1, 1 - j, h - 1);
    }
  }

  lemma AlternateStep(env: Env, self: Node, x: Value, cb: bool, rid: RunId, mode: Mode, j: nat, h: nat)
    requires self.Rec? && j < 2 && h > 0
    requires Step(env, Phase(self, j), x, cb, rid, mode).result.Ok?
    ensures var s := Step(env, Phase(self, j), x, cb, rid, mode);
      Alternate(env, self, x, cb, rid, mode, j, h) == Prepend(s.events, Alternate(env, self, s.result.value, cb, rid, mode, 1 - j, h - 1))
  {
  }

  lemma LoopEndsHere(env: Env, self: Node, x: Value, cb: bool, rid: RunId, mode: Mode, k: nat, j: nat)
    requires self.Rec? && j < 2 && k > 0
    requires Ends(env, Step(env, Phase(self, j), x, cb, rid, mode))
    ensures Loop(env, self, x, cb, rid, mode, k, j) == Alternate(env, self, x, cb, rid, mode, j, 1)
  {
    var s := Step(env, Phase(self, j), x, cb, rid, mode);
    LoopStep(env, self, x, cb, rid, mode, k, j);
    assert s.events + [] == s.events;
  }

  /** With no terminal output, `max_iter + 1` rounds run: `2 * (max_iter + 1)`
      sub-invocations alternating node1 and node2, and node2's last output is
      returned. A negative `max_iter` runs nothing and returns `x` as given. */
  lemma RecursiveRunsAllRounds(env: Env, self: Node, x: Value, cb: bool, rid: RunId, mode: Mode)
    requires self.Rec? && Quiet(env, self, x, cb, rid, mode, 0, 2 * Rounds(self.maxIter))
    ensures Invoke(env, self, x, cb, rid, mode) == Alternate(env, self, x, cb, rid, mode, 0, 2 * Rounds(self.maxIter))
    ensures self.maxIter < 0 ==> Invoke(env, self, x, cb, rid, mode) == Run([], Ok(x))
  {
    LoopRunsAll(env, self, x, cb, rid, mode, Rounds(self.maxIter), 0);
  }

  /** The first sub-invocation that ends the loop, at position `h` of the
      alternation, ends the Recursive: nothing after it runs. */
  lemma RecursiveStopsEarly(env: Env, self: Node, x: Value, cb: bool, rid: RunId, mode: Mode, h: nat)
    requires self.Rec? && 1 <= h <= 2 * Rounds(self.maxIter)
    requires Quiet(env, self, x, cb, rid, mode, 0, h - 1)
    requires Alternate(env, self, x, cb, rid, mode, 0, h - 1).result.Ok?
    requires Ends(env, Step(env, Phase(self, (h - 1) % 2), Alternate(env, self, x, cb, rid, mode, 0, h - 1).result.value, cb, rid, mode))
    ensures Invoke(env, self, x, cb, rid, mode) == Alternate(env, self, x, cb, rid, mode, 0, h)
  {
    LoopStopsAt(env, self, x, cb, rid, mode, Rounds(self.maxIter), 0, h);
  }
}
