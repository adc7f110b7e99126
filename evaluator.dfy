/** The configuration strings DynamicQuoteForm.tsx executes, as opaque oracles:
    `new Function('values', expr)` for computed values, `new Function('fieldName',
    'fieldValue', 'formValue', body)` for custom predicates, and `new RegExp(p).test(v)`
    for Regex rules. */
module Evaluator {
  import opened Common
  import opened Schema
  import opened ValueTree

  /** What compiling and calling a predicate body can do. */
  datatype PredOutcome = CompileError | Threw | Returned(result: Value)

  /** The oracles a form session runs with.
      - `run(expr, values)` is the computed expression's result, or `None` when it
        fails to compile or throws.
      - `pred(body, field, fieldValue, formValue)` is the custom predicate's outcome;
        `formValue` is the object the field was read from (the root tree, or the
        group's own value).
      - `regex(pattern, value)` is `new RegExp(pattern).test(value)`, or `None` when
        the pattern is not a valid regular expression (the constructor throws). */
  datatype Env = Env(
    run: (string, Tree) -> Option<Value>,
    pred: (string, Field, Value, Value) -> PredOutcome,
    regex: (string, Value) -> Option<bool>)

  /** `evaluateValueCalculation(expr, values)`: the expression's result; an empty
      expression, or one that fails to compile or throws, yields `''`. */
  function EvaluateValueCalculation(env: Env, expr: string, values: Tree): (v: Value)
    ensures expr == "" ==> v == Str("")
    ensures env.run(expr, values).None? ==> v == Str("")
    ensures expr != "" && env.run(expr, values).Some? ==> v == env.run(expr, values).value
  {
    if expr == "" then Str("")
    else match env.run(expr, values)
      case None => Str("")
      case Some(r) => r
  }
}
