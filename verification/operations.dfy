/**
  The operation executor: a closed set of eight operation kinds, each routed
  to its own handler. Every handler is still a stub that reports
  Unimplemented, so no operation succeeds yet and the graph is never read or
  written.
 */
module Operations {
  import opened Wrappers
  import opened Status
  import Graph

  /** The eight operation primitives. */
  datatype Kind = Match | Filter | Compare | Traverse | Aggregate | GroupBy | Project | Join

  /**
    The operation's type field: one of the eight kinds, the default value a
    message has when no kind was set, or any other enum number.
   */
  datatype OpType = Unset | Known(kind: Kind) | Other(number: int)

  datatype Operation = Operation(optype: OpType, targetType: string, propertyName: string, parameters: map<string, string>)

  datatype OperationResult = OperationResult(
    nodeIds: seq<string>,
    provenance: seq<string>,
    values: map<string, string>,
    nodesProcessed: int)

  const EmptyResult := OperationResult([], [], map[], 0)

  datatype OperationPlan = OperationPlan(query: string, reasoning: string, operations: seq<Operation>)

  /** An executor bound to the graph it would run against. */
  datatype Executor = Executor(graph: Graph.PropertyGraph)

  /** What running an operation gives: the outcome and the executor afterwards. */
  datatype Step = Step(outcome: Result<OperationResult, Error>, after: Executor)

  /** The name each handler reports in its Unimplemented message. */
  function HandlerName(k: Kind): string {
    match k
    case Match => "Match"
    case Filter => "Filter"
    case Compare => "Compare"
    case Traverse => "Traverse"
    case Aggregate => "Aggregate"
    case GroupBy => "GroupBy"
    case Project => "Project"
    case Join => "Join"
  }

  /** The handler of kind `k`: a stub that fails with Unimplemented and leaves the graph alone. */
  function Handle(k: Kind, ex: Executor, op: Operation): (s: Step)
    ensures s.after == ex
    ensures s.outcome.Err? && s.outcome.error.code == Unimplemented
  {
    Step(Err(Error(Unimplemented, HandlerName(k) + " operation not yet implemented")), ex)
  }

  /** `Execute`: a known kind goes to its handler, anything else is rejected. */
  function Execute(ex: Executor, op: Operation): (s: Step)
    ensures s.after == ex
    ensures s.outcome.Err?
    ensures op.optype.Known? ==> s.outcome.error.code == Unimplemented
    ensures !op.optype.Known? ==> s.outcome == Err(Error(InvalidArgument, "Unknown operation type"))
  {
    match op.optype
    case Known(k) => Handle(k, ex, op)
    case _ => Step(Err(Error(InvalidArgument, "Unknown operation type")), ex)
  }

  /** `ExecutePlan`: not implemented for any plan. */
  function ExecutePlan(ex: Executor, plan: OperationPlan): (s: Step)
    ensures s.after == ex
    ensures s.outcome.Err? && s.outcome.error.code == Unimplemented
  {
    Step(Err(Error(Unimplemented, "ExecutePlan not yet implemented")), ex)
  }

  /** Each kind has a handler of its own: the handlers' messages tell the kinds apart. */
  lemma ExecuteRoutesByKind(ex: Executor, a: Operation, b: Operation)
    requires a.optype.Known? && b.optype.Known?
    ensures Execute(ex, a).outcome == Execute(ex, b).outcome <==> a.optype.kind == b.optype.kind
  {
    if Execute(ex, a).outcome == Execute(ex, b).outcome {
      var suffix := " operation not yet implemented";
      var ma := HandlerName(a.optype.kind) + suffix;
      var mb := HandlerName(b.optype.kind) + suffix;
      assert ma == mb;
      assert HandlerName(a.optype.kind) == ma[..|ma| - |suffix|];
      assert HandlerName(b.optype.kind) == mb[..|mb| - |suffix|];
    }
  }

  /** The executor after running `ops` one after another: every handler is a stub, so it is the executor it started as. */
  function ExecuteMany(ex: Executor, ops: seq<Operation>): (r: Executor)
    ensures r == ex
    decreases |ops|
  {
    if ops == [] then ex else ExecuteMany(Execute(ex, ops[0]).after, ops[1..])
  }
}
