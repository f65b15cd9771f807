# Human approval of agent actions — a Dafny model

The assistant lets a supervisor agent call calendar, mail and web tools. Some tool calls
are gated: the agent's stream stops with an *interrupt* whose value lists *action
requests*, and a human decides on each one. The human either approves it or edits its
arguments. The decisions go back to the agent as a *resume payload* keyed by interrupt id.
There are two front ends:

- the command line (`app.py`): `process_query` reads the stream and collects interrupts
  through `_print_step_update`. `_handle_human_approval` then asks about every action
  request of every interrupt, and the agent is resumed when the payload is non-empty.
- the browser (`streamlit.py`): a session holds the chat history, the thread id and one
  pending interrupt. `process_stream` reads the agent's steps and stops at an interrupt. A
  form reviews the first action request of the pending interrupt: approve (possibly with
  an edited subject and body), or cancel. A reset clears the session.

Modules:

- `Events` — the values these functions inspect:
  - Python values (`None`, strings, dictionaries, action objects) with their truthiness;
  - interrupts, messages and stream steps;
  - decisions, the resume payload;
  - the exceptions the code can raise, as `Failure`.
- `ActionArgs` — how the argument mapping of an action request is found. Both front ends
  use the same expression (`app.py:233-241`, `streamlit.py:80-87`), so it is defined once.
- `Approval` — the command-line approval step.
  - The typed lines are a parameter. Each `input()` takes the next line, and one past the
    end raises EOFError.
  - `HandleHumanApproval` (two nested loops) is proved equal to the function
    `ResolveAll`. `ResolveAll` is built from `DecideAll`, the decisions in order, and
    `Record`, the payload they make.
- `QueryLoop` — `_print_step_update` and `process_query`. The steps of the first stream and
  of the resumed stream are parameters.
- `WebSession` — `process_stream`, the review form and the `Session` class, whose fields are
  updated by the chat box, the approve, cancel and reset buttons.

Both argument-extraction sites use the same expression: `args` when truthy, else
`tool_input` when truthy, else `arguments` whenever the first two are falsy, whatever its
own value; then the action object's `tool_input` when the result is still `None`, then
`{}`.

Some of what is proved:

- An answer selects editing exactly when it is one `e` or `E` with only Python white space
  around it.
- The payload's keys are exactly the ids of the interrupts that carry action requests, with
  one decision each.
- When an interrupt carries several requests, only the decision on its last request is
  kept. That decision is an approval for any answer but `e`, and for `e` the request
  edited with the two lines that follow the answer.
- The first failing answer ends the step.
- The agent is resumed exactly when a collected interrupt carries a request.
- The interrupts met while resuming are never collected.
- A stream without an interrupt entry completes with the text of its last reply.
- In the browser, only the first action request is reviewed. An unchanged form approves.

## Model

| member | source | states |
|---|---|---|
| ActionArgs.ExtractArgs | streamlit.py:75-87 | `get_safe_args`, and the same expression at app.py:233-241: the arguments are `args` when truthy, else `tool_input` when truthy, else `arguments` when not `None`, else the action object's `tool_input` when not `None`, else `{}`; never `None`; a mapping when every candidate is a mapping or `None` |
| Approval.TrimStartShape | app.py:245 | `lstrip` leaves a suffix, removes only white space, and stops at a character that is not white space |
| Approval.TrimEndShape | app.py:245 | `rstrip` leaves a prefix, removes only white space, and stops at a character that is not white space |
| Approval.PaddedEChoosesEdit | app.py:245-247 | one `e` or `E` surrounded only by white space selects editing |
| Approval.ChoosesEditIsPaddedE | app.py:245-247 | every answer that selects editing is one `e` or `E` surrounded only by white space |
| Approval.ChoosesEditExactly | app.py:245-247 | `input().strip().lower() == 'e'` holds exactly for one `e` or `E` with only white space around it; every other answer approves |
| Approval.MergeEdit | app.py:255-257 | the new arguments have the old keys plus `subject`/`message` for non-empty text; an entered text replaces its key only when non-empty; every other key keeps its value |
| Approval.EditedRequest | app.py:253-268 | the edited request has the old keys plus `args`, which holds the new arguments; `tool_input` is rewritten only when `args` was absent, `arguments` only when both were absent; every other key is unchanged |
| Approval.Decide | app.py:245-276 | a successful answer takes at least one and at most all remaining lines |
| Approval.DecideMeaning | app.py:245-276 | approval exactly when a line is left and it does not select editing, taking one line; an edit takes three lines and holds the edited request built from the extracted arguments and the next two lines; failure exactly when input runs out or the arguments to edit are not a mapping |
| Approval.RequestsOf | app.py:227 | the requests of an interrupt are its `action_requests`, or none when that key is missing, each paired with the interrupt's id |
| Approval.DecideAll | app.py:226-276 | a successful run has one decision per pending request |
| Approval.DecideAllFailsFromPrefix | app.py:226-251 | once an answer fails, nothing after it changes the outcome |
| Approval.DecideAllApprovesWithoutEdits | app.py:245-276 | with a line per request and no edit chosen, every request is approved |
| Approval.RecordShape | app.py:270-275 | recording adds exactly the pending ids as keys and stores a one-decision list under each |
| Approval.RecordLeavesOthers | app.py:270-275 | an id no pending request carries keeps its entry |
| Approval.RecordKeepsLastDecision | app.py:226-276 | the entry of an interrupt holds the decision on its last request; earlier ones are overwritten |
| Approval.ResolveFromStep | app.py:229-276 | answering the next request either fails the step with its failure or stores its decision and continues from the lines it left |
| Approval.IdsOfPending | app.py:226-229 | the ids of the pending requests are the ids of the interrupts that carry at least one request |
| Approval.ResumePayloadShape | app.py:221-277 | the payload's keys are exactly the ids of the interrupts carrying requests, one decision each |
| Approval.ResumeKeepsLastDecision | app.py:226-276 | the decision sent for an interrupt is the one made on its last request |
| Approval.DecideAllAt | app.py:226-276 | the k-th decision is the answer to request k read from the line where the first k answers end |
| Approval.ResumeDecisionMeaning | app.py:245-276 | the decision sent for an interrupt comes from the answer to its last request: any answer but `e` sends an approval; `e` sends the request edited by `EditedRequest` with the arguments `MergeEdit` builds from the extracted arguments and the two lines after the answer |
| Approval.ApprovesAllWithoutEdits | app.py:245-277 | with an answer per request and no edit chosen, every interrupt in the payload is approved |
| Approval.AnswerRequest | app.py:229-276 | the body of the inner loop gives exactly the decision and line count of `Decide`, and the same failures |
| Approval.HandleHumanApproval | app.py:221-277 | the two loops compute exactly `ResolveAll`: the payload of all decisions, or the first failure |
| QueryLoop.EntryInterrupts | app.py:213-218 | an entry is read without error exactly when it is a node update or a non-empty interrupt tuple |
| QueryLoop.StepInterrupts | app.py:211-218 | a step appends at most one interrupt per entry |
| QueryLoop.StepInterruptsOk | app.py:212-218 | a step is read without an IndexError exactly when each of its interrupt tuples is non-empty |
| QueryLoop.StepInterruptsAppend | app.py:212 | reading a step in two parts appends what each part appends, in order, or fails at the first failure |
| QueryLoop.NodeUpdatesIgnored | app.py:213-215 | a node's state update adds no interrupt, wherever it stands |
| QueryLoop.InterruptEntriesCollected | app.py:216-218 | a step of interrupt entries contributes the first interrupt of each entry, in order |
| QueryLoop.PrintStepUpdate | app.py:211-219 | the list after a step is the list before it followed by the step's interrupts, or the IndexError |
| QueryLoop.CollectAllOk | app.py:195-199 | a stream is read without error exactly when each of its steps is |
| QueryLoop.CollectAllFailsFromPrefix | app.py:195-199 | a failing step ends the stream's reading, whatever follows |
| QueryLoop.ReadStream | app.py:193-199 | the first stream's loop collects exactly the interrupts of all its steps, in order |
| QueryLoop.ReadResumedStream | app.py:203-209 | the resumed stream's loop fails exactly when one of its steps fails |
| QueryLoop.ProcessQuery | app.py:186-209 | `process_query` collects, asks and resumes exactly as `QueryRun` says |
| QueryLoop.ResumesExactly | app.py:201-209 | the interrupts reported while resuming are never collected; the agent is resumed exactly when a collected interrupt carries a request, with the payload of all collected interrupts |
| QueryLoop.NoInterruptNoQuestion | app.py:201 | without a collected interrupt nothing is asked and the agent is not resumed |
| WebSession.LastReplyAppend | streamlit.py:99-111 | the response found over two runs of messages is the one found over the second, starting from the first's |
| WebSession.LastReplyMeaning | streamlit.py:102-111 | without a reply the response is unchanged; otherwise it is the text of the last assistant message that has text and calls no tool |
| WebSession.StreamCompletes | streamlit.py:99-122 | a stream without an `__interrupt__` entry completes with the last reply among all its messages |
| WebSession.StreamStopsAtFirstInterrupt | streamlit.py:113-117 | a stream stops at its first `__interrupt__` entry: suspended with its first interrupt, or a KeyError on a dictionary, or an IndexError on an empty tuple |
| WebSession.AfterStreamKeepsHistory | streamlit.py:113-122 | a stream only appends to history, at most one assistant message, exactly when it completes with a non-empty response; the pending interrupt changes only when it suspends |
| WebSession.ReviewArgs | streamlit.py:143-154 | the form can be built exactly when the interrupt has a first action request whose extracted arguments are a mapping |
| WebSession.FormArgs | streamlit.py:154-161 | the form keeps the keys; the subject field replaces `subject` when present; the body field replaces `message`, or `body` when there is no `message`; other keys keep their values |
| WebSession.EditedAction | streamlit.py:174-180 | the new arguments replace `args` when present, else `tool_input` when present, else are added as `args` |
| WebSession.ReviewPayloadMeaning | streamlit.py:172-190 | the payload answers only the reviewed interrupt with one decision: approval exactly when the form's arguments equal the extracted ones, else an edit of the first request with the form's arguments |
| WebSession.ReviewPayloadFails | streamlit.py:143-154 | the approve button fails exactly when the form cannot be built |
| WebSession.UnchangedFormApproves | streamlit.py:154-190 | fields submitted with their shown values approve |
| WebSession.OnlyFirstRequestReviewed | streamlit.py:144 | action requests after the first do not change the payload |
| WebSession.ReadMessages | streamlit.py:102-111 | the loop over one update's messages leaves the response `LastReply` gives |
| WebSession.Session.constructor | streamlit.py:62-69 | a new session has an empty history, the given thread id and nothing pending |
| WebSession.Session.ProcessStream | streamlit.py:89-122 | the stream's outcome is `StreamOutcome`; history and pending interrupt change as `AfterStream` says; the thread id is unchanged |
| WebSession.Session.Submit | streamlit.py:206-214 | an empty prompt does nothing; otherwise the prompt is appended as a user message and the stream is processed |
| WebSession.Session.ApproveAndContinue | streamlit.py:172-198 | the payload sent is `ReviewPayload`; on failure nothing changes; otherwise the pending interrupt is cleared and the resumed stream is processed |
| WebSession.Session.RejectOrCancel | streamlit.py:200-204 | it fails exactly when the form cannot be built, changing nothing; otherwise it clears the pending interrupt and appends one cancellation message |
| WebSession.Session.Reset | streamlit.py:125-129 | the history is empty, the thread id is the new one, nothing is pending |

## Left out

- Credentials, the language model, the calendar, mail and web agents, their tools and
  prompts (`app.py:21-184`) are not modelled: they are foreign code and I/O.
- The agent's streams are parameters. The resumed stream is a parameter independent of the
  payload, since how the agent reacts to a decision is not modelled.
- Printing, `pretty_print`, status boxes, `st.markdown`, `st.error`, the page layout and
  styling only produce output. So does the truncated tool output `msg.content[:100]`.
- `uuid.uuid4()` is a parameter of the `Session` constructor and of `Reset`. The
  `config`/thread id passed to the agent is carried but not used, because the agent is not
  modelled.
- `st.rerun()` is modelled only as what it does to the code after it: inside
  `process_stream` it ends the stream. The rerender cycle that follows every action is
  not modelled.
- The `__main__` block of `app.py` (reading the query, printing any exception) is not
  modelled. Its exceptions are the `Err` outcomes.
- Approval.Lower: maps only the ASCII letters, not all of Unicode. It is used only to
  compare with `"e"`, and only `e` and `E` lower to `"e"`, so that comparison is exact.
- Values other than `None`, strings, dictionaries and action objects (numbers, lists) are
  not modelled as argument values.
- Stream step values are assumed to be dictionaries or interrupt tuples. A `None` or
  other non-subscriptable value would raise TypeError at `update[0]` (`app.py:217`) and at
  `"messages" in update` (`streamlit.py:101`). `Update` has no such variant, so that
  failure path is not modelled.
- `request.copy()` and `args.copy()` leave the originals unchanged. Under value semantics
  in Dafny this holds by construction, so aliasing is not modelled.
- The interrupts list that `_print_step_update` appends to in place is modelled as a value
  that the method returns. It is a local of `process_query`, so no alias is lost.
- The form widgets are parameters. `subjectText` and `bodyText` are what the text fields
  return, and the coercion Streamlit applies to a non-string default is not modelled.
- The approve and cancel buttons exist only while an interrupt is pending, and the chat box
  only while none is. These are the `requires` of those methods.
- Approval.Decide: its own contract states only how many lines it takes. Its full meaning
  is the lemma `DecideMeaning`, kept apart so that the loops' proofs stay small.
- QueryLoop.StepInterrupts: its own contract bounds the length. The error condition is the
  lemma `StepInterruptsOk`, kept apart for the same reason.
