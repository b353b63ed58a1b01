/** Parallel: one input fanned out to named sub-nodes, the outputs gathered
    into a mapping keyed by name. The thread pool and the event loop are not
    modelled: the children are evaluated one after the other in insertion
    order, which yields the same keys and values. */
module Parallels {
  import opened Dicts
  import opened Values
  import opened Nodes
  import opened NodeFacts

  class Parallel {
    var name: string
    var nodes: Dict<Node>
    /** `num_workers`, the pool size the executor is given. */
    var numWorkers: Option<int>
    /** `max_workers`, an attribute only `set_max_workers` writes (None: never set). */
    var maxWorkers: Option<int>

    /** `Parallel(*args, nodes=None, name=None, num_workers=None)`: a missing
        or empty `nodes` dict is replaced by the arguments keyed by name. */
    constructor(args: seq<Node>, nodes: Option<Dict<Node>>, name: Option<string>, numWorkers: Option<int>)
      ensures this.nodes == (if nodes.None? || |nodes.value.entries| == 0 then Keyed(args) else nodes.value)
      ensures this.name == ParallelName(Keys(this.nodes), name)
      ensures this.numWorkers == numWorkers && maxWorkers == None
    {
      var d := if nodes.None? || |nodes.value.entries| == 0 then Keyed(args) else nodes.value;
      this.nodes := d;
      this.numWorkers := numWorkers;
      maxWorkers := None;
      this.name := ParallelName(Keys(d), name);
    }

    /** The node this object currently stands for. */
    function AsNode(): (n: Node)
      reads this
      ensures n.Par? && n.name == name && n.nodes == nodes
    {
      Par(name, nodes)
    }

    /** `set_name`. */
    method SetName(name: string)
      modifies this
      ensures this.name == name && nodes == old(nodes)
      ensures numWorkers == old(numWorkers) && maxWorkers == old(maxWorkers)
    {
      this.name := name;
    }

    /** `p & node`: insert or replace the entry under the node's name and
        return the same object; the name is not recomputed. */
    method And(n: Node) returns (p: Parallel)
      modifies this
      ensures p == this
      ensures nodes == Put(old(nodes), n.name, n) && name == old(name)
      ensures numWorkers == old(numWorkers) && maxWorkers == old(maxWorkers)
    {
      nodes := Put(nodes, n.name, n);
      p := this;
    }

    /** `set_max_workers`, as written: it stores `max_workers`, which the
        executor never reads, and leaves the pool size unchanged. */
    method SetMaxWorkers(m: int)
      modifies this
      ensures maxWorkers == Some(m) && numWorkers == old(numWorkers)
      ensures name == old(name) && nodes == old(nodes)
    {
      maxWorkers := Some(m);
    }

    /** `set_max_workers` as evidently intended: it sets the pool size. */
    method SetPoolSize(m: int)
      modifies this
      ensures numWorkers == Some(m) && maxWorkers == old(maxWorkers)
      ensures name == old(name) && nodes == old(nodes)
    {
      numWorkers := Some(m);
    }

    /** `invoke` / `ainvoke`: report every start in insertion order, then
        collect the children's outputs in insertion order, reporting each
        finish. Sync children get the keyword arguments but not the
        callback; async children get both. */
    method Invoke(env: Env, x: Value, cb: bool, rid: RunId, mode: Mode) returns (r: Run)
      ensures r == Nodes.Invoke(env, AsNode(), x, cb, rid, mode)
    {
      var events := ReportStarts(nodes, x, cb, rid);
      r := Collect(env, AsNode(), x, cb, rid, mode, events);
    }
  }

  /** The start events a Parallel reports, one per key in insertion order. */
  method ReportStarts(nodes: Dict<Node>, x: Value, cb: bool, rid: RunId) returns (events: seq<Event>)
    ensures events == Notify(cb, Starts(Keys(nodes), x, rid))
  {
    var es := nodes.entries;
    events := [];
    var i := 0;
    while i < |es|
      invariant 0 <= i <= |es|
      invariant events == Notify(cb, Starts(Keys(nodes)[..i], x, rid))
    {
      assert Starts(Keys(nodes)[..i + 1], x, rid) == Starts(Keys(nodes)[..i], x, rid) + [NodeStart(es[i].0, x, rid)];
      events := events + Notify(cb, [NodeStart(es[i].0, x, rid)]);
      i := i + 1;
    }
    assert Keys(nodes)[..i] == Keys(nodes);
  }

  /** The collecting loop of a Parallel after `events` were reported: each
      child in insertion order, stopping at the first that raises. */
  method Collect(env: Env, n: Node, x: Value, cb: bool, rid: RunId, mode: Mode, events: seq<Event>) returns (r: Run)
    requires n.Par?
    ensures r == Prepend(events, FanIn(env, n, 0, x, cb, rid, mode, Empty()))
  {
    var es := n.nodes.entries;
    var reported := events;
    var outputs: Dict<Value> := Empty();
    var j := 0;
    while j < |es|
      invariant 0 <= j <= |es|
      invariant Prepend(events, FanIn(env, n, 0, x, cb, rid, mode, Empty())) == Prepend(reported, FanIn(env, n, j, x, cb, rid, mode, outputs))
    {
      var c := Nodes.Invoke(env, es[j].1, x, cb && mode == Async, rid, mode);
      if c.result.Err? {
        return Run(reported + c.events, c.result);
      }
      var fin := Notify(cb, [NodeFinish(es[j].0, c.result.value, rid)]);
      FanInStep(env, n, j, x, cb, rid, mode, outputs);
      ConcatAssoc(reported, c.events + fin, FanIn(env, n, j + 1, x, cb, rid, mode, Put(outputs, es[j].0, c.result.value)).events);
      reported := reported + (c.events + fin);
      outputs := Put(outputs, es[j].0, c.result.value);
      j := j + 1;
    }
    r := Run(reported, Ok(Mapping(outputs)));
  }

  /** `a & b` on a node: a new Parallel over the two. */
  method Fork(a: Node, b: Node) returns (p: Parallel)
    ensures fresh(p) && p.nodes == Keyed([a, b]) && p.name == ParallelName(Keys(Keyed([a, b])), None)
    ensures p.numWorkers == None && p.maxWorkers == None
  {
    p := new Parallel([a, b], None, None, None);
  }

  /** The pool size after `set_max_workers` is the one given at construction:
      the call has no effect on how the children run. */
  method MaxWorkersIgnored(args: seq<Node>, m: int) returns (p: Parallel)
    ensures p.numWorkers == None && p.maxWorkers == Some(m)
  {
    p := new Parallel(args, None, None, None);
    p.SetMaxWorkers(m);
  }

  /** With the evidently intended setter the pool size is the one set. */
  method PoolSizeSet(args: seq<Node>, m: int) returns (p: Parallel)
    ensures p.numWorkers == Some(m)
  {
    p := new Parallel(args, None, None, None);
    p.SetPoolSize(m);
  }

  /** Two nodes with the same name: the later one replaces the earlier, and
      the Parallel has a single child. */
  lemma DuplicateNameReplaces(a: Node, b: Node)
    requires a.name == b.name
    ensures Keys(Keyed([a, b])) == [a.name] && Get(Keyed([a, b]), a.name) == b
  {
    var ps := [(a.name, a), (b.name, b)];
    assert NamePairs([a, b]) == ps;
    assert Keyed([a, b]) == FromPairs(ps);
    assert ps[..1] == [(a.name, a)] && [(a.name, a)][..0] == [];
    assert FromPairs(ps[..1]) == Put(Empty(), a.name, a);
  }
}
