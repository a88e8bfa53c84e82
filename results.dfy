/** The parts of an audit result the adapter reads. */
module Results {
  import opened Wrappers

  /** One offending node; `failureSummary` is optional in the engine's result. */
  datatype ViolationNode = ViolationNode(target: seq<string>, html: string, failureSummary: Option<string>)

  /** A failed rule; an absent `helpUrl` is represented by "". */
  datatype Violation = Violation(id: string, help: string, helpUrl: string, nodes: seq<ViolationNode>)

  /** An audit result; `violations` is `None` when the property is undefined. */
  datatype AxeResults = AxeResults(violations: Option<seq<Violation>>)
}
