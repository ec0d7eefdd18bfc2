/** References, bindings and conditions: the data language of workflow nodes. */
module Bindings {
  import opened Prelude

  datatype Reference =
    | WorkflowInput
    | ScopeInput
    | ScopeId
    | NodeOutput(node: Key)
    | LoopState
    | LoopIndex
    | ItemValue
    | ItemIndex
    | ForwardInput
    | ForwardOutput

  /** Literal payloads are opaque text here; no analysis looks inside them. */
  datatype Binding =
    | From(reference: Reference, path: Option<string>)
    | Literal(value: string)
    | Object(fields: seq<Field>)  // in key order
    | Array(items: seq<Binding>)

  datatype Field = Field(name: string, binding: Binding)

  datatype Condition =
    | Compare(op: CompareOp, left: Binding, right: Binding)
    | All(items: seq<Condition>)
    | Any(items: seq<Condition>)
    | Not(inner: Condition)
    | Exists(binding: Binding)

  datatype CompareOp = Eq | Ne | Lt | Le | Gt | Ge

  const MAX_DATA_DEPTH := 32
  const MAX_CONDITION_OPS := 256

  function FromRef(reference: Reference): Binding {
    From(reference, None)
  }

  function Max(a: nat, b: nat): nat {
    if a < b then b else a
  }

  function Depth(b: Binding): nat
    decreases b, 0
  {
    match b
    case From(_, _) => 1
    case Literal(_) => 1
    case Object(fields) => 1 + FieldsDepth(fields)
    case Array(items) => 1 + ItemsDepth(items)
  }

  function FieldsDepth(fields: seq<Field>): nat
    decreases fields
  {
    if fields == [] then 0 else Max(Depth(fields[0].binding), FieldsDepth(fields[1..]))
  }

  function ItemsDepth(items: seq<Binding>): nat
    decreases items
  {
    if items == [] then 0 else Max(Depth(items[0]), ItemsDepth(items[1..]))
  }

  /** The references a binding reads, left to right. */
  function References(b: Binding): seq<Reference>
    decreases b, 0
  {
    match b
    case From(reference, _) => [reference]
    case Literal(_) => []
    case Object(fields) => FieldsReferences(fields)
    case Array(items) => ItemsReferences(items)
  }

  function FieldsReferences(fields: seq<Field>): seq<Reference>
    decreases fields
  {
    if fields == [] then [] else References(fields[0].binding) + FieldsReferences(fields[1..])
  }

  function ItemsReferences(items: seq<Binding>): seq<Reference>
    decreases items
  {
    if items == [] then [] else References(items[0]) + ItemsReferences(items[1..])
  }

  function OperatorCount(c: Condition): nat
    decreases c, 0
  {
    match c
    case All(items) => 1 + OperatorSum(items)
    case Any(items) => 1 + OperatorSum(items)
    case Not(inner) => 1 + OperatorCount(inner)
    case _ => 1
  }

  function OperatorSum(items: seq<Condition>): nat
    decreases items
  {
    if items == [] then 0 else OperatorCount(items[0]) + OperatorSum(items[1..])
  }

  function ConditionBindings(c: Condition): seq<Binding>
    decreases c, 0
  {
    match c
    case Compare(_, left, right) => [left, right]
    case All(items) => ConditionsBindings(items)
    case Any(items) => ConditionsBindings(items)
    case Not(inner) => ConditionBindings(inner)
    case Exists(binding) => [binding]
  }

  function ConditionsBindings(items: seq<Condition>): seq<Binding>
    decreases items
  {
    if items == [] then [] else ConditionBindings(items[0]) + ConditionsBindings(items[1..])
  }

  /** `workflow.input` at `path` equals a literal. */
  function EqInput(path: string, value: string): Condition {
    Compare(Eq, From(WorkflowInput, Some(path)), Literal(value))
  }

  /** `loop.state` at `path` is below a literal. */
  function LtLoop(path: string, value: string): Condition {
    Compare(Lt, From(LoopState, Some(path)), Literal(value))
  }

  /** `workflow.input` at `path` exists and is true. */
  function FlagTrue(path: string): Condition {
    All([Exists(From(WorkflowInput, Some(path))), EqInput(path, "true")])
  }
}
