/** ConditionalBranch objects: the branch dict and the router are updated in
    place by `/` and `bind_router`; dispatch itself is `Nodes.Invoke` on the
    `Branch` variant. */
module Branches {
  import opened Dicts
  import opened Values
  import opened Nodes

  class ConditionalBranch {
    var name: string
    var branches: Dict<Node>
    var router: Option<Value -> Value>

    /** `ConditionalBranch(*args, router=None, branches=None, name=None)`: a
        missing or empty `branches` dict is replaced by the arguments keyed
        by name. */
    constructor(args: seq<Node>, router: Option<Value -> Value>, branches: Option<Dict<Node>>, name: Option<string>)
      ensures this.branches == (if branches.None? || |branches.value.entries| == 0 then Keyed(args) else branches.value)
      ensures this.name == BranchName(Keys(this.branches), name)
      ensures this.router == router
    {
      var d := if branches.None? || |branches.value.entries| == 0 then Keyed(args) else branches.value;
      this.branches := d;
      this.name := BranchName(Keys(d), name);
      this.router := router;
    }

    /** The node this object currently stands for. */
    function AsNode(): (n: Node)
      reads this
      ensures n.Branch? && n.name == name && n.branches == branches && n.router == router
    {
      Branch(name, branches, router)
    }

    /** `set_name`. */
    method SetName(name: string)
      modifies this
      ensures this.name == name && branches == old(branches) && router == old(router)
    {
      this.name := name;
    }

    /** `branch / node`: insert or replace the branch under the node's name
        and return the same object; the name is not recomputed. */
    method Div(n: Node) returns (b: ConditionalBranch)
      modifies this
      ensures b == this
      ensures branches == Put(old(branches), n.name, n) && name == old(name) && router == old(router)
    {
      branches := Put(branches, n.name, n);
      b := this;
    }

    /** `bind_router`: set the router and return the same object. */
    method BindRouter(f: Value -> Value) returns (b: ConditionalBranch)
      modifies this
      ensures b == this
      ensures router == Some(f) && name == old(name) && branches == old(branches)
    {
      router := Some(f);
      b := this;
    }
  }

  /** `a / b` on a node: a new ConditionalBranch over the two, without a router. */
  method Choice(a: Node, b: Node) returns (c: ConditionalBranch)
    ensures fresh(c) && c.branches == Keyed([a, b]) && c.router == None
    ensures c.name == BranchName(Keys(Keyed([a, b])), None)
  {
    c := new ConditionalBranch([a, b], None, None, None);
  }
}
