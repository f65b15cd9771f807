/** How an action request's argument mapping is found. The command-line loop and the
    browser session extract it with the same expression; it is defined once here. */
module ActionArgs {
  import opened Events

  /** What `action.tool_input` gives when the request's `"action"` object has that
      attribute, and `None` otherwise */
  function ActionToolInput(request: Request): Value {
    if "action" in request then
      match request["action"]
      case Action(Some(t)) => t
      case _ => Null
    else Null
  }

  /** A value that is a mapping or `None` */
  predicate MappingOrNone(v: Value) {
    v.Dict? || v.Null?
  }

  /** `request.get("args") or request.get("tool_input") or request.get("arguments")`,
      then the action object's `tool_input` if that is still `None`, then `{}`. */
  function ExtractArgs(request: Request): (r: Value)
    ensures r != Null
    ensures Truthy(Get(request, "args")) ==> r == request["args"]
    ensures !Truthy(Get(request, "args")) && Truthy(Get(request, "tool_input")) ==>
              r == request["tool_input"]
    ensures !Truthy(Get(request, "args")) && !Truthy(Get(request, "tool_input")) &&
            Get(request, "arguments") != Null ==>
              r == request["arguments"]
    ensures !Truthy(Get(request, "args")) && !Truthy(Get(request, "tool_input")) &&
            Get(request, "arguments") == Null && ActionToolInput(request) != Null ==>
              r == ActionToolInput(request)
    ensures !Truthy(Get(request, "args")) && !Truthy(Get(request, "tool_input")) &&
            Get(request, "arguments") == Null && ActionToolInput(request) == Null ==>
              r == Dict(map[])
    ensures MappingOrNone(Get(request, "args")) && MappingOrNone(Get(request, "tool_input")) &&
            MappingOrNone(Get(request, "arguments")) && MappingOrNone(ActionToolInput(request)) ==>
              r.Dict?
  {
    var current := Or(Or(Get(request, "args"), Get(request, "tool_input")), Get(request, "arguments"));
    var fallback :=
      if current == Null && "action" in request then
        match request["action"]
        case Action(Some(t)) => t
        case _ => current
      else current;
    if fallback == Null then Dict(map[]) else fallback
  }
}
