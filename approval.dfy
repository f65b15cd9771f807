/** The command-line approval step (`AssistantBackend._handle_human_approval` in app.py):
    every action request of every collected interrupt is shown to the human, whose answer
    approves it or edits its subject and body, and the decisions are gathered into the
    resume payload, keyed by interrupt id.

    The human's typed lines are a parameter: each `input()` call takes the next line, and a
    call past the last line fails with `EndOfInput`. */
module Approval {
  import opened Events
  import opened ActionArgs

  // ---------------------------------------------------------------------------------------
  // Reading the answer: `input(...).strip().lower() == 'e'`

  /** The characters Python's `str.strip()` removes (those for which `str.isspace()` holds) */
  predicate IsSpace(c: char) {
    var n := c as int;
    (9 <= n <= 13) || (28 <= n <= 32) || n == 0x85 || n == 0xA0 || n == 0x1680 ||
    (0x2000 <= n <= 0x200A) || n == 0x2028 || n == 0x2029 || n == 0x202F ||
    n == 0x205F || n == 0x3000
  }

  predicate AllSpace(s: string) {
    forall i | 0 <= i < |s| :: IsSpace(s[i])
  }

  /** `s.lstrip()`: the suffix left after the leading white space */
  function TrimStart(s: string): string {
    if s != [] && IsSpace(s[0]) then TrimStart(s[1..]) else s
  }

  lemma {:induction false} TrimStartShape(s: string)
    ensures |TrimStart(s)| <= |s| && TrimStart(s) == s[|s| - |TrimStart(s)|..]
    ensures AllSpace(s[..|s| - |TrimStart(s)|])
    ensures TrimStart(s) == [] || !IsSpace(TrimStart(s)[0])
  {
    if s != [] && IsSpace(s[0]) {
      TrimStartShape(s[1..]);
      var r := TrimStart(s[1..]);
      assert s[..|s| - |r|] == [s[0]] + s[1..][..|s| - 1 - |r|];
    }
  }

  /** `s.rstrip()`: the prefix left before the trailing white space */
  function TrimEnd(s: string): string {
    if s != [] && IsSpace(s[|s| - 1]) then TrimEnd(s[..|s| - 1]) else s
  }

  lemma {:induction false} TrimEndShape(s: string)
    ensures |TrimEnd(s)| <= |s| && TrimEnd(s) == s[..|TrimEnd(s)|]
    ensures AllSpace(s[|TrimEnd(s)|..])
    ensures TrimEnd(s) == [] || !IsSpace(TrimEnd(s)[|TrimEnd(s)| - 1])
  {
    if s != [] && IsSpace(s[|s| - 1]) {
      TrimEndShape(s[..|s| - 1]);
      var r := TrimEnd(s[..|s| - 1]);
      assert s[|r|..] == s[..|s| - 1][|r|..] + [s[|s| - 1]];
    }
  }

  function Strip(s: string): string {
    TrimEnd(TrimStart(s))
  }

  /** `str.lower()` on one character; only the ASCII letters are mapped (see README) */
  function LowerChar(c: char): char {
    if 'A' <= c <= 'Z' then (c as int + 32) as char else c
  }

  function Lower(s: string): (r: string)
    ensures |r| == |s|
  {
    if s == [] then [] else [LowerChar(s[0])] + Lower(s[1..])
  }

  /** The answer selects editing */
  predicate ChoosesEdit(answer: string) {
    Lower(Strip(answer)) == "e"
  }

  lemma {:induction false} TrimStartAt(s: string, i: nat)
    requires i < |s| && AllSpace(s[..i]) && !IsSpace(s[i])
    ensures TrimStart(s) == s[i..]
  {
    if i > 0 {
      assert s[..i][0] == s[0];
      assert s[1..][..i - 1] == s[1..i];
      TrimStartAt(s[1..], i - 1);
      assert s[1..][i - 1..] == s[i..];
    }
  }

  lemma {:induction false} TrimEndAt(s: string, j: nat)
    requires j < |s| && AllSpace(s[j + 1..]) && !IsSpace(s[j])
    ensures TrimEnd(s) == s[..j + 1]
    decreases |s| - j
  {
    if j < |s| - 1 {
      var n := |s| - 1;
      assert s[j + 1..][n - j - 1] == s[n];
      assert s[..n][j + 1..] == s[j + 1..n];
      TrimEndAt(s[..n], j);
      assert s[..n][..j + 1] == s[..j + 1];
    }
  }

  /** An answer that is one `e` or `E` with only white space around it selects editing. */
  lemma {:induction false} PaddedEChoosesEdit(answer: string, i: nat)
    requires i < |answer| && (answer[i] == 'e' || answer[i] == 'E')
    requires AllSpace(answer[..i]) && AllSpace(answer[i + 1..])
    ensures ChoosesEdit(answer)
  {
    TrimStartAt(answer, i);
    var t := answer[i..];
    assert t[1..] == answer[i + 1..];
    TrimEndAt(t, 0);
    assert Strip(answer) == [answer[i]];
    assert Lower([answer[i]]) == [LowerChar(answer[i])];
  }

  /** Every answer that selects editing is one `e` or `E` with only white space around it. */
  lemma {:induction false} ChoosesEditIsPaddedE(answer: string) returns (i: nat)
    requires ChoosesEdit(answer)
    ensures i < |answer| && (answer[i] == 'e' || answer[i] == 'E')
    ensures AllSpace(answer[..i]) && AllSpace(answer[i + 1..])
  {
    var t := TrimStart(answer);
    TrimStartShape(answer);
    var y := TrimEnd(t);
    TrimEndShape(t);
    assert |Lower(y)| == |y| == 1;
    assert Lower(y)[0] == LowerChar(y[0]) == 'e';
    i := |answer| - |t|;
    assert answer[i] == t[0] == y[0];
    assert answer[i + 1..] == t[1..];
  }

  /** An answer selects editing exactly when it is one `e` or `E` with only white space
      around it; every other answer approves. */
  lemma ChoosesEditExactly(answer: string)
    ensures ChoosesEdit(answer) <==>
      exists i | 0 <= i < |answer| ::
        (answer[i] == 'e' || answer[i] == 'E') && AllSpace(answer[..i]) && AllSpace(answer[i + 1..])
  {
    if ChoosesEdit(answer) {
      var i := ChoosesEditIsPaddedE(answer);
    }
    if exists i | 0 <= i < |answer| ::
        (answer[i] == 'e' || answer[i] == 'E') && AllSpace(answer[..i]) && AllSpace(answer[i + 1..]) {
      var i :| 0 <= i < |answer| &&
        (answer[i] == 'e' || answer[i] == 'E') && AllSpace(answer[..i]) && AllSpace(answer[i + 1..]);
      PaddedEChoosesEdit(answer, i);
    }
  }

  // ---------------------------------------------------------------------------------------
  // The edit

  /** The edited arguments: a copy of the current ones in which `subject` and `message` are
      overwritten by the entered text, each only when that text is non-empty. */
  function MergeEdit(args: Args, subject: string, body: string): (r: Args)
    ensures r.Keys == args.Keys + (if subject != "" then {"subject"} else {}) +
                      (if body != "" then {"message"} else {})
    ensures forall k | k in args && k != "subject" && k != "message" :: r[k] == args[k]
    ensures "subject" in r ==>
              r["subject"] == if subject != "" then Str(subject) else args["subject"]
    ensures "message" in r ==>
              r["message"] == if body != "" then Str(body) else args["message"]
  {
    var withSubject := if subject != "" then args["subject" := Str(subject)] else args;
    if body != "" then withSubject["message" := Str(body)] else withSubject
  }

  /** The edited request: a copy of the request whose `"args"` entry is the new arguments;
      the one key the arguments were found under among `tool_input` and `arguments` is
      rewritten as well, and only when `"args"` was absent. */
  function EditedRequest(request: Request, newArgs: Args): (r: Request)
    ensures r.Keys == request.Keys + {"args"}
    ensures r["args"] == Dict(newArgs)
    ensures "tool_input" in request ==>
              r["tool_input"] == if "args" !in request then Dict(newArgs) else request["tool_input"]
    ensures "arguments" in request ==>
              r["arguments"] == if "args" !in request && "tool_input" !in request
                                then Dict(newArgs) else request["arguments"]
    ensures forall k | k in request && k != "args" && k != "tool_input" && k != "arguments" ::
              r[k] == request[k]
  {
    var edited :=
      if "args" in request then request["args" := Dict(newArgs)]
      else if "tool_input" in request then request["tool_input" := Dict(newArgs)]
      else if "arguments" in request then request["arguments" := Dict(newArgs)]
      else request;
    edited["args" := Dict(newArgs)]
  }

  /** A decision together with the number of typed lines it took */
  datatype Answered = Answered(decision: Decision, consumed: nat)

  /** The decision on one request, read from the typed lines: one line for an approval,
      three (the choice, the subject, the body) for an edit. */
  function Decide(request: Request, lines: seq<string>): (r: Outcome<Answered>)
    ensures r.Ok? ==> 1 <= r.value.consumed <= |lines|
  {
    if |lines| == 0 then Err(EndOfInput)
    else if !ChoosesEdit(lines[0]) then Ok(Answered(Approve, 1))
    else
      var current := ExtractArgs(request);
      if !current.Dict? then Err(NotAMapping)
      else if |lines| < 3 then Err(EndOfInput)
      else Ok(Answered(Edit(EditedRequest(request, MergeEdit(current.entries, lines[1], lines[2]))), 3))
  }

  /** An answer that does not select editing approves, taking one line; one that does is an
      edit of the extracted arguments with the next two lines as subject and body; the
      answer fails when input runs out or the arguments to edit are not a mapping. */
  lemma DecideMeaning(request: Request, lines: seq<string>)
    ensures var r := Decide(request, lines);
      && ((r.Ok? && r.value.decision == Approve) <==> (|lines| >= 1 && !ChoosesEdit(lines[0])))
      && (r.Ok? && r.value.decision == Approve ==> r.value.consumed == 1)
      && (r.Ok? && r.value.decision.Edit? ==>
            && ChoosesEdit(lines[0])
            && ExtractArgs(request).Dict?
            && r.value.consumed == 3
            && r.value.decision.editedAction ==
                 EditedRequest(request, MergeEdit(ExtractArgs(request).entries, lines[1], lines[2])))
      && (r.Err? <==>
            |lines| == 0 ||
            (ChoosesEdit(lines[0]) && (!ExtractArgs(request).Dict? || |lines| < 3)))
  {
  }

  // ---------------------------------------------------------------------------------------
  // All pending requests, their decisions and the resume payload

  /** One action request, with the id of the interrupt that carries it */
  datatype PendingRequest = PendingRequest(id: string, request: Request)

  /** `interrupt_.value.get("action_requests", [])`, paired with the interrupt's id */
  function RequestsOf(interrupt: Interrupt): (r: seq<PendingRequest>)
    ensures |r| == |interrupt.actionRequests.GetOr([])|
    ensures forall k | 0 <= k < |r| :: r[k] == PendingRequest(interrupt.id, interrupt.actionRequests.GetOr([])[k])
  {
    var requests := interrupt.actionRequests.GetOr([]);
    seq(|requests|, k requires 0 <= k < |requests| => PendingRequest(interrupt.id, requests[k]))
  }

  /** Every action request of every interrupt, in the order the two loops visit them */
  function Pending(interrupts: seq<Interrupt>): seq<PendingRequest> {
    if interrupts == [] then [] else RequestsOf(interrupts[0]) + Pending(interrupts[1..])
  }

  lemma PendingFrom(interrupts: seq<Interrupt>, i: nat)
    requires i < |interrupts|
    ensures Pending(interrupts[i..]) == RequestsOf(interrupts[i]) + Pending(interrupts[i + 1..])
  {
    assert interrupts[i..][1..] == interrupts[i + 1..];
  }

  /** The decisions on the pending requests, in order; each answer is read from the lines
      the earlier answers left. */
  function DecideAll(pending: seq<PendingRequest>, input: seq<string>): (r: Outcome<seq<Decision>>)
    ensures r.Ok? ==> |r.value| == |pending|
  {
    if pending == [] then Ok([])
    else
      match Decide(pending[0].request, input)
      case Err(e) => Err(e)
      case Ok(a) =>
        match DecideAll(pending[1..], input[a.consumed..])
        case Err(e) => Err(e)
        case Ok(ds) => Ok([a.decision] + ds)
  }

  /** Once a request's answer fails, no later request is asked and the whole approval step
      fails with that failure. */
  lemma {:induction false} DecideAllFailsFromPrefix(p: seq<PendingRequest>, q: seq<PendingRequest>, input: seq<string>)
    requires DecideAll(p, input).Err?
    ensures DecideAll(p + q, input) == DecideAll(p, input)
    decreases |p|
  {
    assert (p + q)[0] == p[0];
    match Decide(p[0].request, input)
    case Err(_) =>
    case Ok(a) =>
      assert (p + q)[1..] == p[1..] + q;
      DecideAllFailsFromPrefix(p[1..], q, input[a.consumed..]);
  }

  /** When no typed answer selects editing and there is one line per request, every request
      is approved. */
  lemma {:induction false} DecideAllApprovesWithoutEdits(pending: seq<PendingRequest>, input: seq<string>)
    requires |input| >= |pending|
    requires forall k | 0 <= k < |input| :: !ChoosesEdit(input[k])
    ensures DecideAll(pending, input).Ok?
    ensures forall k | 0 <= k < |pending| :: DecideAll(pending, input).value[k] == Approve
    decreases |pending|
  {
    if pending != [] {
      assert !ChoosesEdit(input[0]);
      assert forall k | 0 <= k < |input[1..]| :: input[1..][k] == input[k + 1];
      DecideAllApprovesWithoutEdits(pending[1..], input[1..]);
    }
  }

  /** The ids of the pending requests */
  function IdsOf(pending: seq<PendingRequest>): set<string> {
    if pending == [] then {} else {pending[0].id} + IdsOf(pending[1..])
  }

  lemma {:induction false} IdsOfAppend(a: seq<PendingRequest>, b: seq<PendingRequest>)
    ensures IdsOf(a + b) == IdsOf(a) + IdsOf(b)
    decreases |a|
  {
    if a == [] {
      assert a + b == b;
    } else {
      assert (a + b)[0] == a[0] && (a + b)[1..] == a[1..] + b;
      IdsOfAppend(a[1..], b);
    }
  }

  lemma {:induction false} IdsOfMember(pending: seq<PendingRequest>, id: string)
    requires id in IdsOf(pending)
    ensures exists k | 0 <= k < |pending| :: pending[k].id == id
    decreases |pending|
  {
    if id != pending[0].id {
      IdsOfMember(pending[1..], id);
      var k :| 0 <= k < |pending| - 1 && pending[1..][k].id == id;
      assert pending[k + 1] == pending[1..][k];
    }
  }

  lemma {:induction false} IdsOfRequestsOf(interrupt: Interrupt)
    ensures IdsOf(RequestsOf(interrupt)) == if RequestsOf(interrupt) == [] then {} else {interrupt.id}
  {
    var rs := RequestsOf(interrupt);
    if rs != [] {
      assert rs[0].id == interrupt.id;
      if IdsOf(rs) != {interrupt.id} {
        var id :| id in IdsOf(rs) && id != interrupt.id;
        IdsOfMember(rs, id);
      }
    }
  }

  /** No request after position k belongs to the same interrupt as request k */
  predicate LastOfItsInterrupt(pending: seq<PendingRequest>, k: int)
    requires 0 <= k < |pending|
  {
    forall j | k < j < |pending| :: pending[j].id != pending[k].id
  }

  /** `resume[interrupt_.id] = {"decisions": [decision]}` for each request in turn, starting
      from the payload built so far */
  function Record(pending: seq<PendingRequest>, ds: seq<Decision>, resume: ResumePayload): ResumePayload
    requires |ds| == |pending|
  {
    if pending == [] then resume
    else Record(pending[1..], ds[1..], resume[pending[0].id := [ds[0]]])
  }

  /** Recording adds one key per interrupt id and stores one decision under each. */
  lemma {:induction false} RecordShape(pending: seq<PendingRequest>, ds: seq<Decision>, resume: ResumePayload)
    requires |ds| == |pending|
    ensures Record(pending, ds, resume).Keys == resume.Keys + IdsOf(pending)
    ensures (forall id | id in resume :: |resume[id]| == 1) ==>
              forall id | id in Record(pending, ds, resume) :: |Record(pending, ds, resume)[id]| == 1
    decreases |pending|
  {
    if pending != [] {
      RecordShape(pending[1..], ds[1..], resume[pending[0].id := [ds[0]]]);
    }
  }

  /** Recording leaves the entry of an id no pending request carries as it was. */
  lemma {:induction false} RecordLeavesOthers(pending: seq<PendingRequest>, ds: seq<Decision>, resume: ResumePayload, id: string)
    requires |ds| == |pending| && id in resume
    requires forall j | 0 <= j < |pending| :: pending[j].id != id
    ensures id in Record(pending, ds, resume) && Record(pending, ds, resume)[id] == resume[id]
    decreases |pending|
  {
    if pending != [] {
      assert forall j | 0 <= j < |pending| - 1 :: pending[1..][j] == pending[j + 1];
      RecordLeavesOthers(pending[1..], ds[1..], resume[pending[0].id := [ds[0]]], id);
    }
  }

  /** When an interrupt carries several requests, the decision on its last one is kept. */
  lemma {:induction false} RecordKeepsLastDecision(pending: seq<PendingRequest>, ds: seq<Decision>, resume: ResumePayload, k: nat)
    requires |ds| == |pending| && k < |pending| && LastOfItsInterrupt(pending, k)
    ensures pending[k].id in Record(pending, ds, resume)
    ensures Record(pending, ds, resume)[pending[k].id] == [ds[k]]
    decreases |pending|
  {
    var later := resume[pending[0].id := [ds[0]]];
    assert forall j | 0 <= j < |pending| - 1 :: pending[1..][j] == pending[j + 1];
    if k == 0 {
      RecordLeavesOthers(pending[1..], ds[1..], later, pending[0].id);
    } else {
      assert ds[1..][k - 1] == ds[k];
      assert LastOfItsInterrupt(pending[1..], k - 1);
      RecordKeepsLastDecision(pending[1..], ds[1..], later, k - 1);
    }
  }

  /** The position of the last request of the interrupt that request k belongs to */
  function LastIndex(pending: seq<PendingRequest>, k: nat): (r: nat)
    requires k < |pending|
    ensures k <= r < |pending| && pending[r].id == pending[k].id
    ensures LastOfItsInterrupt(pending, r)
    decreases |pending| - k
  {
    if exists j | k < j < |pending| :: pending[j].id == pending[k].id then
      var j :| k < j < |pending| && pending[j].id == pending[k].id;
      LastIndex(pending, j)
    else k
  }

  /** What answering the remaining requests from the remaining lines gives, starting from the
      payload built so far: the finished payload, or the first failure */
  function ResolveFrom(pending: seq<PendingRequest>, input: seq<string>, resume: ResumePayload): Outcome<ResumePayload> {
    match DecideAll(pending, input)
    case Err(e) => Err(e)
    case Ok(ds) => Ok(Record(pending, ds, resume))
  }

  /** The result of `_handle_human_approval`: the payload, or the exception it raises */
  function ResolveAll(interrupts: seq<Interrupt>, lines: seq<string>): Outcome<ResumePayload> {
    ResolveFrom(Pending(interrupts), lines, map[])
  }

  /** Answering the first remaining request: a failure ends the step with that failure;
      otherwise its decision is stored under its interrupt's id and the rest continue from
      the lines it left. */
  lemma ResolveFromStep(pending: seq<PendingRequest>, input: seq<string>, resume: ResumePayload)
    requires pending != []
    ensures ResolveFrom(pending, input, resume) ==
      match Decide(pending[0].request, input)
      case Err(e) => Err(e)
      case Ok(a) => ResolveFrom(pending[1..], input[a.consumed..], resume[pending[0].id := [a.decision]])
  {
  }

  /** The ids of the interrupts that carry at least one action request */
  function AnsweredIds(interrupts: seq<Interrupt>): set<string> {
    set j | 0 <= j < |interrupts| && interrupts[j].actionRequests.GetOr([]) != [] :: interrupts[j].id
  }

  lemma {:induction false} IdsOfPending(interrupts: seq<Interrupt>)
    ensures IdsOf(Pending(interrupts)) == AnsweredIds(interrupts)
    decreases |interrupts|
  {
    if interrupts != [] {
      var first := interrupts[0];
      var rest := interrupts[1..];
      IdsOfPending(rest);
      IdsOfAppend(RequestsOf(first), Pending(rest));
      IdsOfRequestsOf(first);
      var own := if first.actionRequests.GetOr([]) != [] then {first.id} else {};
      assert IdsOf(Pending(interrupts)) == own + AnsweredIds(rest);
      forall id | id in AnsweredIds(interrupts) ensures id in own + AnsweredIds(rest) {
        var j :| 0 <= j < |interrupts| && interrupts[j].actionRequests.GetOr([]) != [] && interrupts[j].id == id;
        if j > 0 {
          assert rest[j - 1] == interrupts[j];
        }
      }
      forall id | id in AnsweredIds(rest) ensures id in AnsweredIds(interrupts) {
        var j :| 0 <= j < |rest| && rest[j].actionRequests.GetOr([]) != [] && rest[j].id == id;
        assert interrupts[j + 1] == rest[j];
      }
    }
  }

  /** The resume payload's keys are exactly the ids of the interrupts that carry action
      requests, and each holds exactly one decision. */
  lemma ResumePayloadShape(interrupts: seq<Interrupt>, lines: seq<string>)
    requires ResolveAll(interrupts, lines).Ok?
    ensures ResolveAll(interrupts, lines).value.Keys == AnsweredIds(interrupts)
    ensures forall id | id in ResolveAll(interrupts, lines).value :: |ResolveAll(interrupts, lines).value[id]| == 1
  {
    var p := Pending(interrupts);
    RecordShape(p, DecideAll(p, lines).value, map[]);
    IdsOfPending(interrupts);
  }

  /** The decision stored for an interrupt is the one made on its last action request. */
  lemma ResumeKeepsLastDecision(interrupts: seq<Interrupt>, lines: seq<string>, k: nat)
    requires ResolveAll(interrupts, lines).Ok?
    requires k < |Pending(interrupts)| && LastOfItsInterrupt(Pending(interrupts), k)
    ensures var p := Pending(interrupts);
      && p[k].id in ResolveAll(interrupts, lines).value
      && ResolveAll(interrupts, lines).value[p[k].id] == [DecideAll(p, lines).value[k]]
  {
    var p := Pending(interrupts);
    RecordKeepsLastDecision(p, DecideAll(p, lines).value, map[], k);
  }

  /** The number of lines the answers to the first k pending requests take, that is where
      the answer to request k starts */
  function Offset(pending: seq<PendingRequest>, input: seq<string>, k: nat): (r: nat)
    requires k <= |pending|
    ensures r <= |input|
    decreases k
  {
    if k == 0 then 0
    else
      match Decide(pending[0].request, input)
      case Err(_) => 0
      case Ok(a) => a.consumed + Offset(pending[1..], input[a.consumed..], k - 1)
  }

  /** One step of `DecideAll` and `Offset`: past the first request, both continue on the
      input after its answer. */
  lemma DecideAllStep(pending: seq<PendingRequest>, input: seq<string>, k: nat)
    requires DecideAll(pending, input).Ok? && 0 < k < |pending|
    ensures Decide(pending[0].request, input).Ok?
    ensures var rest := input[Decide(pending[0].request, input).value.consumed..];
      && DecideAll(pending[1..], rest).Ok?
      && DecideAll(pending, input).value[k] == DecideAll(pending[1..], rest).value[k - 1]
      && Offset(pending, input, k) == Decide(pending[0].request, input).value.consumed + Offset(pending[1..], rest, k - 1)
  {
  }

  /** The k-th decision is the answer to request k read from the line where it starts. */
  lemma {:induction false} DecideAllAt(pending: seq<PendingRequest>, input: seq<string>, k: nat)
    requires DecideAll(pending, input).Ok? && k < |pending|
    ensures Decide(pending[k].request, input[Offset(pending, input, k)..]).Ok?
    ensures DecideAll(pending, input).value[k] ==
            Decide(pending[k].request, input[Offset(pending, input, k)..]).value.decision
    decreases k
  {
    if k == 0 {
      assert input[0..] == input;
    } else {
      DecideAllStep(pending, input, k);
      var c := Decide(pending[0].request, input).value.consumed;
      var rest := input[c..];
      DecideAllAt(pending[1..], rest, k - 1);
      var o := Offset(pending[1..], rest, k - 1);
      assert rest[o..] == input[c + o..];
      assert pending[1..][k - 1] == pending[k];
    }
  }

  /** The decision sent for an interrupt is read from the answer to its last action request:
      an answer that does not select editing approves, and `e` sends the edited request built
      from the extracted arguments and the two lines after the answer. */
  lemma ResumeDecisionMeaning(interrupts: seq<Interrupt>, lines: seq<string>, k: nat)
    requires ResolveAll(interrupts, lines).Ok?
    requires k < |Pending(interrupts)| && LastOfItsInterrupt(Pending(interrupts), k)
    ensures var p := Pending(interrupts);
      var o := Offset(p, lines, k);
      var payload := ResolveAll(interrupts, lines).value;
      && o < |lines|
      && p[k].id in payload
      && (!ChoosesEdit(lines[o]) ==> payload[p[k].id] == [Approve])
      && (ChoosesEdit(lines[o]) ==>
            && o + 2 < |lines|
            && ExtractArgs(p[k].request).Dict?
            && payload[p[k].id] ==
                 [Edit(EditedRequest(p[k].request, MergeEdit(ExtractArgs(p[k].request).entries, lines[o + 1], lines[o + 2])))])
  {
    var p := Pending(interrupts);
    var o := Offset(p, lines, k);
    ResumeKeepsLastDecision(interrupts, lines, k);
    DecideAllAt(p, lines, k);
    var answer := lines[o..];
    DecideMeaning(p[k].request, answer);
    if |answer| > 0 {
      assert answer[0] == lines[o];
    }
    if |answer| >= 3 {
      assert answer[1] == lines[o + 1] && answer[2] == lines[o + 2];
    }
  }

  /** With no edit chosen and an answer for every request, every interrupt that carries
      requests is approved. */
  lemma ApprovesAllWithoutEdits(interrupts: seq<Interrupt>, lines: seq<string>)
    requires |lines| >= |Pending(interrupts)|
    requires forall k | 0 <= k < |lines| :: !ChoosesEdit(lines[k])
    ensures ResolveAll(interrupts, lines).Ok?
    ensures forall id | id in ResolveAll(interrupts, lines).value :: ResolveAll(interrupts, lines).value[id] == [Approve]
  {
    var p := Pending(interrupts);
    DecideAllApprovesWithoutEdits(p, lines);
    var ds := DecideAll(p, lines).value;
    var r := Record(p, ds, map[]);
    RecordShape(p, ds, map[]);
    forall id | id in r ensures r[id] == [Approve] {
      var k :| 0 <= k < |p| && p[k].id == id by {
        IdsOfMember(p, id);
      }
      var last := LastIndex(p, k);
      RecordKeepsLastDecision(p, ds, map[], last);
    }
  }
  /** The body of the inner loop for one request: print it, read the answer and, for an
      edit, the new subject and body, and build the decision. */
  method AnswerRequest(request: Request, lines: seq<string>, pos: nat) returns (r: Outcome<Answered>)
    requires pos <= |lines|
    ensures r == Decide(request, lines[pos..])
  {
    var currentArgs := ExtractArgs(request);
    if pos >= |lines| {
      return Err(EndOfInput);
    }
    if ChoosesEdit(lines[pos]) {
      if !currentArgs.Dict? {
        return Err(NotAMapping);
      }
      if pos + 2 >= |lines| {
        return Err(EndOfInput);
      }
      var newSubject := lines[pos + 1];
      var newBody := lines[pos + 2];
      var editedRequest := request;
      var newArgs := currentArgs.entries;
      if newSubject != "" {
        newArgs := newArgs["subject" := Str(newSubject)];
      }
      if newBody != "" {
        newArgs := newArgs["message" := Str(newBody)];
      }
      if "args" in editedRequest {
        editedRequest := editedRequest["args" := Dict(newArgs)];
      } else if "tool_input" in editedRequest {
        editedRequest := editedRequest["tool_input" := Dict(newArgs)];
      } else if "arguments" in editedRequest {
        editedRequest := editedRequest["arguments" := Dict(newArgs)];
      }
      editedRequest := editedRequest["args" := Dict(newArgs)];
      r := Ok(Answered(Edit(editedRequest), 3));
    } else {
      r := Ok(Answered(Approve, 1));
    }
  }

  /** The command-line approval loop: for each interrupt, for each of its action requests,
      read the human's answer and store the decision under the interrupt's id. */
  method HandleHumanApproval(interrupts: seq<Interrupt>, lines: seq<string>) returns (r: Outcome<ResumePayload>)
    ensures r == ResolveAll(interrupts, lines)
  {
    var resume: ResumePayload := map[];
    var pos: nat := 0;
    var i := 0;
    while i < |interrupts|
      invariant 0 <= i <= |interrupts| && pos <= |lines|
      invariant ResolveFrom(Pending(interrupts[i..]), lines[pos..], resume) == ResolveAll(interrupts, lines)
    {
      var interrupt := interrupts[i];
      var requests := interrupt.actionRequests.GetOr([]);
      ghost var later := Pending(interrupts[i + 1..]);
      PendingFrom(interrupts, i);
      assert RequestsOf(interrupt)[0..] == RequestsOf(interrupt);
      var j := 0;
      while j < |requests|
        invariant 0 <= j <= |requests| && pos <= |lines|
        invariant ResolveFrom(RequestsOf(interrupt)[j..] + later, lines[pos..], resume) == ResolveAll(interrupts, lines)
      {
        var request := requests[j];
        SuffixStep(RequestsOf(interrupt), later, j);
        ResolveFromStep(RequestsOf(interrupt)[j..] + later, lines[pos..], resume);
        var answered := AnswerRequest(request, lines, pos);
        if answered.Err? {
          return Err(answered.failure);
        }
        resume := resume[interrupt.id := [answered.value.decision]];
        assert lines[pos..][answered.value.consumed..] == lines[pos + answered.value.consumed..];
        pos := pos + answered.value.consumed;
        j := j + 1;
      }
      assert RequestsOf(interrupt)[j..] + later == later;
      i := i + 1;
    }
    r := Ok(resume);
  }
}
