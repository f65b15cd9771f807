/** The browser front end (streamlit.py): a session keeps the chat history, the thread id
    and the interrupt waiting for review; a prompt or an approval streams the agent's
    steps, and the review form approves, edits or cancels the first pending action.

    Widgets, rendering and the rerun that follows every action are not modelled: what the
    human types into the form and the steps the agent yields are parameters, and a rerun
    raised inside the stream ends that stream (it is `Suspended` below). */
module WebSession {
  import opened Events
  import opened ActionArgs

  datatype ChatRole = User | Assistant

  /** One entry of `st.session_state.messages`: `{"role": ..., "content": ...}` */
  datatype ChatMessage = ChatMessage(role: ChatRole, content: string)

  /** The message recorded when the human rejects an action */
  const Cancelled := "Action cancelled by user."

  // ---------------------------------------------------------------------------------------
  // The agent's stream (`process_stream`)

  /** An assistant message with text that calls no tool: the candidate final response.
      Assistant messages that call tools and tool results are only shown in the status box. */
  predicate IsReply(m: Message) {
    m.role == Ai && m.toolCalls == [] && m.content != ""
  }

  /** `final_response` after the messages of one update have been read, starting from `final` */
  function LastReply(msgs: seq<Message>, final: string): string {
    if msgs == [] then final
    else LastReply(msgs[1..], if IsReply(msgs[0]) then msgs[0].content else final)
  }

  lemma {:induction false} LastReplyAppend(a: seq<Message>, b: seq<Message>, final: string)
    ensures LastReply(a + b, final) == LastReply(b, LastReply(a, final))
    decreases |a|
  {
    if a == [] {
      assert a + b == b;
    } else {
      assert (a + b)[0] == a[0] && (a + b)[1..] == a[1..] + b;
      LastReplyAppend(a[1..], b, if IsReply(a[0]) then a[0].content else final);
    }
  }

  /** Without a reply the response stays as it was; otherwise it is the text of the last reply. */
  lemma {:induction false} LastReplyMeaning(msgs: seq<Message>, final: string)
    ensures (forall k | 0 <= k < |msgs| :: !IsReply(msgs[k])) ==> LastReply(msgs, final) == final
    ensures (exists k | 0 <= k < |msgs| :: IsReply(msgs[k])) ==>
              exists k | 0 <= k < |msgs| ::
                && IsReply(msgs[k])
                && LastReply(msgs, final) == msgs[k].content
                && forall j | k < j < |msgs| :: !IsReply(msgs[j])
    decreases |msgs|
  {
    if msgs != [] {
      var next := if IsReply(msgs[0]) then msgs[0].content else final;
      var rest := msgs[1..];
      LastReplyMeaning(rest, next);
      assert forall j | 0 <= j < |rest| :: rest[j] == msgs[j + 1];
      if exists k | 0 <= k < |rest| :: IsReply(rest[k]) {
        var k :| 0 <= k < |rest| && IsReply(rest[k]) && LastReply(rest, next) == rest[k].content &&
          forall j | k < j < |rest| :: !IsReply(rest[j]);
        assert IsReply(msgs[k + 1]) && forall j | k + 1 < j < |msgs| :: !IsReply(msgs[j]);
      } else if IsReply(msgs[0]) {
        assert forall j | 0 < j < |msgs| :: !IsReply(msgs[j]);
      }
    }
  }

  /** The messages a stream entry carries: those of a node update that has a `"messages"` entry */
  function MessagesOf(u: Update): seq<Message> {
    match u
    case NodeUpdate(Some(msgs)) => msgs
    case _ => []
  }

  /** All entries of all steps, in order */
  function Flatten(steps: seq<Step>): seq<(string, Update)> {
    if steps == [] then [] else steps[0] + Flatten(steps[1..])
  }

  lemma FlattenFrom(steps: seq<Step>, s: nat)
    requires s < |steps|
    ensures Flatten(steps[s..]) == steps[s] + Flatten(steps[s + 1..])
  {
    assert steps[s..][1..] == steps[s + 1..];
  }

  /** How a stream ends: read to the end with the final response, or stopped at an interrupt,
      which becomes the pending interrupt */
  datatype StreamEnd = Completed(reply: string) | Suspended(interrupt: Interrupt)

  /** The remaining entries read with the response found so far. An entry's messages are read
      first; then, under `"__interrupt__"`, `update[0]` is the interrupt (a KeyError on a
      dictionary, an IndexError on an empty tuple) and the rerun ends the stream. */
  function ReadEntries(entries: seq<(string, Update)>, final: string): Outcome<StreamEnd> {
    if entries == [] then Ok(Completed(final))
    else
      var (key, u) := entries[0];
      if key == InterruptKey then
        match u
        case NodeUpdate(_) => Err(MissingKey("0"))
        case InterruptUpdate(xs) => if xs == [] then Err(IndexOutOfRange) else Ok(Suspended(xs[0]))
      else ReadEntries(entries[1..], LastReply(MessagesOf(u), final))
  }

  /** `process_stream(stream)`, for the steps the stream yields */
  function StreamOutcome(steps: seq<Step>): Outcome<StreamEnd> {
    ReadEntries(Flatten(steps), "")
  }

  /** The messages of all entries, in order */
  function AllMessages(entries: seq<(string, Update)>): seq<Message> {
    if entries == [] then [] else MessagesOf(entries[0].1) + AllMessages(entries[1..])
  }

  /** A stream without an interrupt entry completes, and its response is the text of the last
      reply among all its messages (empty when there is none). */
  lemma {:induction false} StreamCompletes(entries: seq<(string, Update)>, final: string)
    requires forall k | 0 <= k < |entries| :: entries[k].0 != InterruptKey
    ensures ReadEntries(entries, final) == Ok(Completed(LastReply(AllMessages(entries), final)))
    decreases |entries|
  {
    if entries != [] {
      var rest := entries[1..];
      assert forall k | 0 <= k < |rest| :: rest[k] == entries[k + 1];
      StreamCompletes(rest, LastReply(MessagesOf(entries[0].1), final));
      LastReplyAppend(MessagesOf(entries[0].1), AllMessages(rest), final);
    }
  }

  /** The stream stops at its first interrupt entry: with that entry's first interrupt, or
      with the error `update[0]` raises there. */
  lemma {:induction false} StreamStopsAtFirstInterrupt(entries: seq<(string, Update)>, final: string, k: nat)
    requires k < |entries| && entries[k].0 == InterruptKey
    requires forall j | 0 <= j < k :: entries[j].0 != InterruptKey
    ensures ReadEntries(entries, final) ==
      match entries[k].1
      case NodeUpdate(_) => Err(MissingKey("0"))
      case InterruptUpdate(xs) => if xs == [] then Err(IndexOutOfRange) else Ok(Suspended(xs[0]))
    decreases k
  {
    if k > 0 {
      var rest := entries[1..];
      assert forall j | 0 <= j < |rest| :: rest[j] == entries[j + 1];
      StreamStopsAtFirstInterrupt(rest, LastReply(MessagesOf(entries[0].1), final), k - 1);
    }
  }

  /** The history and the pending interrupt after a stream: a completed stream appends its
      response when there is one, a suspended one makes its interrupt pending, and a failing
      one changes neither. */
  function AfterStream(messages: seq<ChatMessage>, pending: Option<Interrupt>, r: Outcome<StreamEnd>)
    : (seq<ChatMessage>, Option<Interrupt>)
  {
    match r
    case Ok(Completed(reply)) =>
      (messages + (if reply != "" then [ChatMessage(Assistant, reply)] else []), pending)
    case Ok(Suspended(x)) => (messages, Some(x))
    case Err(_) => (messages, pending)
  }

  /** A stream never removes or rewrites history: at most one assistant message is added, and
      only by a stream that completes with a non-empty response. */
  lemma AfterStreamKeepsHistory(messages: seq<ChatMessage>, pending: Option<Interrupt>, r: Outcome<StreamEnd>)
    ensures var (after, _) := AfterStream(messages, pending, r);
      && messages <= after
      && |after| <= |messages| + 1
      && (|after| == |messages| + 1 <==> r.Ok? && r.value.Completed? && r.value.reply != "")
      && (|after| == |messages| + 1 ==> after[|messages|] == ChatMessage(Assistant, r.value.reply))
    ensures AfterStream(messages, pending, r).1 != pending ==> r.Ok? && r.value.Suspended?
  {
  }

  // ---------------------------------------------------------------------------------------
  // The review form

  /** `interrupt.value["action_requests"][0]` and `get_safe_args` of it, as the form needs
      them: a KeyError or IndexError when there is no first request, an AttributeError on
      `args.copy()` when the arguments are not a dictionary */
  function ReviewArgs(interrupt: Interrupt): (r: Outcome<(Request, Args)>)
    ensures r.Ok? <==>
      interrupt.actionRequests.Some? && interrupt.actionRequests.value != [] &&
      ExtractArgs(interrupt.actionRequests.value[0]).Dict?
    ensures r.Ok? ==>
      r.value.0 == interrupt.actionRequests.value[0] && Dict(r.value.1) == ExtractArgs(r.value.0)
  {
    match interrupt.actionRequests
    case None => Err(MissingKey("action_requests"))
    case Some(requests) =>
      if requests == [] then Err(IndexOutOfRange)
      else
        var args := ExtractArgs(requests[0]);
        if args.Dict? then Ok((requests[0], args.entries)) else Err(NotAMapping)
  }

  /** The arguments as the form returns them: the subject field replaces `subject` when the
      arguments have one, and the body field replaces `message`, or else `body`. */
  function FormArgs(args: Args, subjectText: string, bodyText: string): (r: Args)
    ensures r.Keys == args.Keys
    ensures forall k | k in args && k != "subject" && k != "message" && k != "body" :: r[k] == args[k]
    ensures "subject" in args ==> r["subject"] == Str(subjectText)
    ensures "message" in args ==> r["message"] == Str(bodyText)
    ensures "body" in args ==> r["body"] == if "message" in args then args["body"] else Str(bodyText)
  {
    var withSubject := if "subject" in args then args["subject" := Str(subjectText)] else args;
    if "message" in args then withSubject["message" := Str(bodyText)]
    else if "body" in args then withSubject["body" := Str(bodyText)]
    else withSubject
  }

  /** The edited action of the form: the new arguments replace `args` when present, else
      `tool_input` when present, and are added as `args` otherwise. */
  function EditedAction(request: Request, newArgs: Args): (r: Request)
    ensures "args" in request || "tool_input" !in request ==>
              r == request["args" := Dict(newArgs)]
    ensures "args" !in request && "tool_input" in request ==>
              r == request["tool_input" := Dict(newArgs)]
  {
    if "args" in request then request["args" := Dict(newArgs)]
    else if "tool_input" in request then request["tool_input" := Dict(newArgs)]
    else request["args" := Dict(newArgs)]
  }

  /** The payload the approve button sends: one decision under the interrupt's id, an approval
      when the form left the arguments as they were and an edit otherwise */
  function ReviewPayload(interrupt: Interrupt, subjectText: string, bodyText: string): Outcome<ResumePayload> {
    match ReviewArgs(interrupt)
    case Err(e) => Err(e)
    case Ok((request, args)) =>
      var newArgs := FormArgs(args, subjectText, bodyText);
      if newArgs != args then Ok(map[interrupt.id := [Edit(EditedAction(request, newArgs))]])
      else Ok(map[interrupt.id := [Approve]])
  }

  /** The payload answers exactly the reviewed interrupt with exactly one decision; it is an
      approval exactly when the form's arguments equal the extracted ones, and an edit of the
      first request carrying the form's arguments otherwise. */
  lemma ReviewPayloadMeaning(interrupt: Interrupt, subjectText: string, bodyText: string)
    requires ReviewArgs(interrupt).Ok?
    ensures var r := ReviewPayload(interrupt, subjectText, bodyText);
      var (request, args) := ReviewArgs(interrupt).value;
      && r.Ok?
      && r.value.Keys == {interrupt.id}
      && |r.value[interrupt.id]| == 1
      && (r.value[interrupt.id][0] == Approve <==> FormArgs(args, subjectText, bodyText) == args)
      && (r.value[interrupt.id][0].Edit? ==>
            r.value[interrupt.id][0].editedAction == EditedAction(request, FormArgs(args, subjectText, bodyText)))
  {
  }

  /** The form fails exactly as reading its first request fails. */
  lemma ReviewPayloadFails(interrupt: Interrupt, subjectText: string, bodyText: string)
    ensures ReviewPayload(interrupt, subjectText, bodyText).Err? <==> ReviewArgs(interrupt).Err?
  {
  }

  /** Submitting the form as it was filled in approves the action. */
  lemma {:induction false} UnchangedFormApproves(interrupt: Interrupt, subjectText: string, bodyText: string)
    requires ReviewArgs(interrupt).Ok?
    requires var args := ReviewArgs(interrupt).value.1;
      && ("subject" in args ==> args["subject"] == Str(subjectText))
      && ("message" in args ==> args["message"] == Str(bodyText))
      && ("message" !in args && "body" in args ==> args["body"] == Str(bodyText))
    ensures ReviewPayload(interrupt, subjectText, bodyText) == Ok(map[interrupt.id := [Approve]])
  {
    var args := ReviewArgs(interrupt).value.1;
    var newArgs := FormArgs(args, subjectText, bodyText);
    assert forall k | k in args :: newArgs[k] == args[k];
    assert newArgs == args;
  }

  /** Only the first action request of an interrupt is reviewed: the ones after it change
      nothing in the payload. */
  lemma OnlyFirstRequestReviewed(id: string, first: Request, more: seq<Request>, subjectText: string, bodyText: string)
    ensures ReviewPayload(Interrupt(id, Some([first] + more)), subjectText, bodyText) ==
            ReviewPayload(Interrupt(id, Some([first])), subjectText, bodyText)
  {
    assert ([first] + more)[0] == first;
  }

  // ---------------------------------------------------------------------------------------
  // The session

  /** `st.session_state`: the chat history, the thread id and the interrupt waiting for review */
  class Session {
    var messages: seq<ChatMessage>
    var threadId: string
    var pendingInterrupt: Option<Interrupt>

    /** A new session; the thread id is the caller's fresh `uuid4` */
    constructor(threadId: string)
      ensures messages == [] && this.threadId == threadId && pendingInterrupt == None
    {
      messages := [];
      this.threadId := threadId;
      pendingInterrupt := None;
    }

    /** `process_stream`: read every entry of every step, keep the last reply, stop at an
        interrupt entry (making its interrupt pending), and append the reply at the end. */
    method ProcessStream(steps: seq<Step>) returns (r: Outcome<StreamEnd>)
      modifies this
      ensures r == StreamOutcome(steps)
      ensures (messages, pendingInterrupt) == AfterStream(old(messages), old(pendingInterrupt), r)
      ensures threadId == old(threadId)
    {
      var final := "";
      var s := 0;
      while s < |steps|
        invariant 0 <= s <= |steps|
        invariant ReadEntries(Flatten(steps[s..]), final) == StreamOutcome(steps)
        invariant messages == old(messages) && pendingInterrupt == old(pendingInterrupt)
        invariant threadId == old(threadId)
      {
        var step := steps[s];
        ghost var later := Flatten(steps[s + 1..]);
        FlattenFrom(steps, s);
        assert step[0..] == step;
        var e := 0;
        while e < |step|
          invariant 0 <= e <= |step|
          invariant ReadEntries(step[e..] + later, final) == StreamOutcome(steps)
          invariant messages == old(messages) && pendingInterrupt == old(pendingInterrupt)
          invariant threadId == old(threadId)
        {
          var (key, update) := step[e];
          SuffixStep(step, later, e);
          final := ReadMessages(MessagesOf(update), final);
          if key == InterruptKey {
            match update
            case NodeUpdate(_) =>
              return Err(MissingKey("0"));
            case InterruptUpdate(xs) =>
              if xs == [] {
                return Err(IndexOutOfRange);
              }
              pendingInterrupt := Some(xs[0]);
              return Ok(Suspended(xs[0]));
          }
          e := e + 1;
        }
        assert step[e..] + later == later;
        s := s + 1;
      }
      assert steps[s..] == [];
      assert messages + [] == messages;
      if final != "" {
        messages := messages + [ChatMessage(Assistant, final)];
      }
      r := Ok(Completed(final));
    }

    /** The chat box: an empty prompt is not taken; a prompt is recorded as a user message and
        the agent's steps are streamed. The chat box exists only while no interrupt waits. */
    method Submit(prompt: string, steps: seq<Step>) returns (r: Option<Outcome<StreamEnd>>)
      requires pendingInterrupt.None?
      modifies this
      ensures prompt == "" ==> r == None && messages == old(messages) && pendingInterrupt == None
      ensures prompt != "" ==>
        && r == Some(StreamOutcome(steps))
        && (messages, pendingInterrupt) == AfterStream(old(messages) + [ChatMessage(User, prompt)], None, r.value)
      ensures threadId == old(threadId)
    {
      if prompt == "" {
        return None;
      }
      messages := messages + [ChatMessage(User, prompt)];
      var outcome := ProcessStream(steps);
      r := Some(outcome);
    }

    /** The approve button: build the payload from the form, clear the pending interrupt and
        stream the agent's resumed steps. */
    method ApproveAndContinue(subjectText: string, bodyText: string, resumeSteps: seq<Step>)
      returns (sent: Outcome<ResumePayload>, r: Outcome<StreamEnd>)
      requires pendingInterrupt.Some?
      modifies this
      ensures sent == ReviewPayload(old(pendingInterrupt).value, subjectText, bodyText)
      ensures sent.Err? ==>
        r == Err(sent.failure) && messages == old(messages) && pendingInterrupt == old(pendingInterrupt)
      ensures sent.Ok? ==>
        r == StreamOutcome(resumeSteps) && (messages, pendingInterrupt) == AfterStream(old(messages), None, r)
      ensures threadId == old(threadId)
    {
      var interrupt := pendingInterrupt.value;
      var reviewed := ReviewArgs(interrupt);
      if reviewed.Err? {
        return Err(reviewed.failure), Err(reviewed.failure);
      }
      var (actionRequest, args) := reviewed.value;
      var newArgs := args;
      if "subject" in args {
        newArgs := newArgs["subject" := Str(subjectText)];
      }
      if "message" in args {
        newArgs := newArgs["message" := Str(bodyText)];
      } else if "body" in args {
        newArgs := newArgs["body" := Str(bodyText)];
      }
      if newArgs != args {
        var editedAction := actionRequest;
        if "args" in editedAction {
          editedAction := editedAction["args" := Dict(newArgs)];
        } else if "tool_input" in editedAction {
          editedAction := editedAction["tool_input" := Dict(newArgs)];
        } else {
          editedAction := editedAction["args" := Dict(newArgs)];
        }
        sent := Ok(map[interrupt.id := [Edit(editedAction)]]);
      } else {
        sent := Ok(map[interrupt.id := [Approve]]);
      }
      pendingInterrupt := None;
      r := ProcessStream(resumeSteps);
    }

    /** The cancel button: clear the pending interrupt and record the cancellation. The form
        around the button is built first, so a malformed interrupt fails before it. */
    method RejectOrCancel() returns (r: Outcome<()>)
      requires pendingInterrupt.Some?
      modifies this
      ensures r.Ok? <==> ReviewArgs(old(pendingInterrupt).value).Ok?
      ensures r.Err? ==>
        && r.failure == ReviewArgs(old(pendingInterrupt).value).failure
        && messages == old(messages) && pendingInterrupt == old(pendingInterrupt)
      ensures r.Ok? ==>
        messages == old(messages) + [ChatMessage(Assistant, Cancelled)] && pendingInterrupt == None
      ensures threadId == old(threadId)
    {
      var reviewed := ReviewArgs(pendingInterrupt.value);
      if reviewed.Err? {
        return Err(reviewed.failure);
      }
      pendingInterrupt := None;
      messages := messages + [ChatMessage(Assistant, Cancelled)];
      r := Ok(());
    }

    /** The reset button: an empty history, a fresh thread id and nothing pending */
    method Reset(newThreadId: string)
      modifies this
      ensures messages == [] && threadId == newThreadId && pendingInterrupt == None
    {
      messages := [];
      threadId := newThreadId;
      pendingInterrupt := None;
    }
  }

  /** The inner loop of `process_stream` over one update's messages: tool calls and tool
      results are only shown; an assistant message with text becomes the response. */
  method ReadMessages(msgs: seq<Message>, final0: string) returns (final: string)
    ensures final == LastReply(msgs, final0)
  {
    final := final0;
    var m := 0;
    while m < |msgs|
      invariant 0 <= m <= |msgs|
      invariant LastReply(msgs[m..], final) == LastReply(msgs, final0)
    {
      var msg := msgs[m];
      assert msgs[m..][1..] == msgs[m + 1..];
      if msg.role == Ai && msg.toolCalls != [] {
      } else if msg.role == Tool {
      } else if msg.role == Ai && msg.content != "" {
        final := msg.content;
      }
      m := m + 1;
    }
  }
}
