/** The values and stream events that the human-approval code inspects.

    The agents, the language model and the checkpoint store are not modelled: what they
    produce reaches this code as a finite sequence of stream steps, and what the code
    sends back is a resume payload. */
module Events {

  datatype Option<+T> = None | Some(value: T) {
    /** `d.get(key, default)` on an optional entry */
    function GetOr(default: T): T {
      match this
      case Some(v) => v
      case None => default
    }
  }

  /** The Python values found in an action request: `None`, a string, a dictionary, or an
      action object whose `tool_input` attribute may be missing. */
  datatype Value =
    | Null
    | Str(s: string)
    | Dict(entries: map<string, Value>)
    | Action(toolInput: Option<Value>)

  /** Python truthiness of a value */
  predicate Truthy(v: Value) {
    match v
    case Null => false
    case Str(s) => s != ""
    case Dict(m) => m != map[]
    case Action(_) => true
  }

  /** `d.get(key)`, which gives `None` for a missing key */
  function Get(d: map<string, Value>, key: string): Value {
    if key in d then d[key] else Null
  }

  /** Python's `a or b` */
  function Or(a: Value, b: Value): Value {
    if Truthy(a) then a else b
  }

  /** A tool's argument mapping, e.g. {to, subject, message} */
  type Args = map<string, Value>

  /** One pending action request, a dictionary naming its arguments under one of several keys */
  type Request = map<string, Value>

  /** An interrupt raised by the approval middleware; `actionRequests` is the optional
      `"action_requests"` entry of its value. */
  datatype Interrupt = Interrupt(id: string, actionRequests: Option<seq<Request>>)

  datatype Role = Ai | Tool | Human | System

  /** A conversation message; `toolCalls` names the tools an assistant message calls. */
  datatype Message = Message(role: Role, content: string, toolCalls: seq<string>)

  /** The value of one entry of a stream step: a node's state update (a dictionary with an
      optional `"messages"` entry) or the tuple of interrupts under `"__interrupt__"`. */
  datatype Update =
    | NodeUpdate(messages: Option<seq<Message>>)
    | InterruptUpdate(interrupts: seq<Interrupt>)

  /** The key under which a stream step reports interrupts */
  const InterruptKey := "__interrupt__"

  /** One step of the stream: its entries in dictionary order */
  type Step = seq<(string, Update)>

  /** A human decision on one pending action request */
  datatype Decision = Approve | Edit(editedAction: Request)

  /** `{interrupt id: {"decisions": [...]}}` */
  type ResumePayload = map<string, seq<Decision>>

  /** The exceptions the approval code can raise:
      EOFError from `input()`, AttributeError when an argument value is not a dictionary,
      KeyError and IndexError on a malformed interrupt. */
  datatype Failure = EndOfInput | NotAMapping | MissingKey(key: string) | IndexOutOfRange

  datatype Outcome<+T> = Ok(value: T) | Err(failure: Failure)

  /** A loop over the remainder `s[j..]` of a list, followed by what comes after it, takes
      `s[j]` first and continues with `s[j + 1..]`. */
  lemma SuffixStep<T>(s: seq<T>, l: seq<T>, j: nat)
    requires j < |s|
    ensures (s[j..] + l)[0] == s[j] && (s[j..] + l)[1..] == s[j + 1..] + l
  {
  }
}
