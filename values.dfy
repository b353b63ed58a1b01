/** The values that flow between nodes, the NodeOutput wrapper, the two
    helpers that inspect it (`get_content`, `check_for_break`), the errors a
    flow can raise and the callback events it reports. */
module Values {
  import opened Dicts

  datatype Option<T> = None | Some(value: T)

  /** A Python value as far as the execution core looks at it. */
  datatype Value =
    | Nil                                   // Python None
    | Int(i: int)
    | Str(s: string)
    | Output(content: Value, isFinal: bool) // a NodeOutput
    | Mapping(outputs: Dict<Value>)         // the name -> output dict a Parallel returns
    | Builtin(ident: string)                // a Python builtin object used as a value

  /** Python truthiness, as `while not response` reads it. A NodeOutput object
      is taken to be truthy (it defines neither `__bool__` nor `__len__`). */
  predicate Truthy(v: Value) {
    match v
    case Nil => false
    case Int(i) => i != 0
    case Str(s) => s != ""
    case Output(_, _) => true
    case Mapping(d) => |d.entries| > 0
    case Builtin(_) => true
  }

  /** What `get_content` and `check_for_break` do with values that are not a
      NodeOutput is not part of this model: they are these two parameters. */
  datatype Env = Env(mappingContent: Dict<Value> -> Value, breakOther: Value -> bool)

  /** `get_content(v)`: the content of a NodeOutput, anything else except a
      mapping unchanged. */
  function GetContent(env: Env, v: Value): Value {
    match v
    case Output(c, _) => c
    case Mapping(d) => env.mappingContent(d)
    case _ => v
  }

  /** `check_for_break(v)`: the `is_final` flag of a NodeOutput. */
  predicate CheckForBreak(env: Env, v: Value) {
    match v
    case Output(_, f) => f
    case _ => env.breakOther(v)
  }

  datatype Error =
    | NotImplemented(node: string)                      // NodeMeta.run without an override
    | RoutingError(route: Value, available: seq<string>) // ConditionalBranch._get_node
    | Unhashable(route: Value)                          // a dict used as a dict key
    | NoContent(value: Value)                           // `x.content` on a non-NodeOutput
    | MissingName                                       // `.name` never assigned
    | AlreadyCompiled                                   // Graph.compile(use_ray=True) twice
    | Unbound(variable: string)                         // a local read before it is assigned

  datatype Result<T> = Ok(value: T) | Err(error: Error)

  /** `x.content`, which only a NodeOutput has. */
  function ContentOf(v: Value): Result<Value> {
    if v.Output? then Ok(v.content) else Err(NoContent(v))
  }

  /** The `run_id` keyword argument; absent unless a caller passes one. */
  datatype RunId = NoRunId | RunId(id: string)

  /** One `node_start` or `node_finish` call on the callback object. */
  datatype Event =
    | NodeStart(node: string, inputs: Value, runId: RunId)
    | NodeFinish(node: string, outputs: Value, runId: RunId)

  /** The node calls a step made on the callback, in order, and what it returned or raised. */
  datatype Run = Run(events: seq<Event>, result: Result<Value>)

  function Prepend(es: seq<Event>, r: Run): Run {
    Run(es + r.events, r.result)
  }

  /** `if callback: ...`: the events happen only when a callback is given. */
  function Notify(cb: bool, es: seq<Event>): seq<Event> {
    if cb then es else []
  }
}
