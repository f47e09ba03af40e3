/** `execute_operation` and `get_execution_time`: what a functional unit
    computes from a station's operands, and how long it takes. */
module Arithmetic {
  import opened Wrappers

  /** Why a completing unit raised instead of producing a result. */
  datatype Fault =
    | OperandMissing           // Python's TypeError: arithmetic on a `None` operand
    | DivisionNotModelled      // `DIV` is true division and yields a float

  /** What `execute_operation` hands back: a (possibly `None`) result, or a fault. */
  datatype Evaluation = Value(result: Option<int>) | Raised(fault: Fault)

  predicate IsArithmetic(op: Option<string>) {
    op == Some("ADD") || op == Some("SUB") || op == Some("MUL")
  }

  /** The `if/elif` chain over the operation name. An operation the chain does
      not name falls off the end and returns `None`. */
  function ExecuteOperation(op: Option<string>, vj: Option<int>, vk: Option<int>): (e: Evaluation)
    ensures e.Raised? <==>
              (IsArithmetic(op) || op == Some("DIV")) && (vj.None? || vk.None? || op == Some("DIV"))
    ensures e == Value(None) <==> !IsArithmetic(op) && op != Some("DIV")
    ensures e.Raised? && (vj.None? || vk.None?) ==> e.fault == OperandMissing
    ensures IsArithmetic(op) && vj.Some? && vk.Some? ==>
              e.Value? && e.result.Some? &&
              (op == Some("ADD") ==> e.result.value == vj.value + vk.value) &&
              (op == Some("SUB") ==> e.result.value == vj.value - vk.value) &&
              (op == Some("MUL") ==> e.result.value == vj.value * vk.value)
  {
    if op == Some("ADD") then
      if vj.Some? && vk.Some? then Value(Some(vj.value + vk.value)) else Raised(OperandMissing)
    else if op == Some("SUB") then
      if vj.Some? && vk.Some? then Value(Some(vj.value - vk.value)) else Raised(OperandMissing)
    else if op == Some("MUL") then
      if vj.Some? && vk.Some? then Value(Some(vj.value * vk.value)) else Raised(OperandMissing)
    else if op == Some("DIV") then
      if vj.Some? && vk.Some? then Raised(DivisionNotModelled) else Raised(OperandMissing)
    else Value(None)
  }

  /** An arithmetic operation on two present operands never raises and always
      produces a present result: the fact that keeps `run` free of TypeErrors. */
  lemma ArithmeticOnValuesIsTotal(op: Option<string>, a: int, b: int)
    requires IsArithmetic(op)
    ensures ExecuteOperation(op, Some(a), Some(b)).Value?
    ensures ExecuteOperation(op, Some(a), Some(b)).result.Some?
  {
  }

  /** `get_execution_time`: every operation takes one cycle. */
  function ExecutionTime(op: Option<string>): nat
  {
    1
  }
}
