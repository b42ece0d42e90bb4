/** The tool-call arguments, `request.Params.Arguments` of the MCP request:
    a map from argument names to decoded JSON values, and the Go type
    assertions the handlers apply to them. */
module Requests {
  import opened Results

  /** A decoded JSON value. JSON numbers arrive as `float64`; the model keeps
      them as integers, after the handlers' `int64(...)` conversion. */
  datatype Value =
    | Str(s: string)
    | Number(n: int)
    | Bool(b: bool)
    | Array(items: seq<Value>)
    | Null

  type Arguments = map<string, Value>

  /** `args[key].(string)`: the string, or `None` when the argument is absent
      or is not a string. */
  function StringArg(args: Arguments, key: string): Option<string>
  {
    if key in args && args[key].Str? then Some(args[key].s) else None
  }

  /** `args[key].(float64)` followed by the integer conversion. */
  function NumberArg(args: Arguments, key: string): Option<int>
  {
    if key in args && args[key].Number? then Some(args[key].n) else None
  }

  /** `args[key].([]interface{})`. */
  function ArrayArg(args: Arguments, key: string): Option<seq<Value>>
  {
    if key in args && args[key].Array? then Some(args[key].items) else None
  }
}
