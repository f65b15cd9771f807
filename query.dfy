/** One query on the command line (`AssistantBackend.process_query` and
    `_print_step_update` in app.py): the agent's stream is read step by step, the first
    interrupt of every interrupt entry is collected, the human answers them, and when the
    payload is non-empty the agent is resumed with it.

    The agent is not modelled: the steps its first stream yields and the steps the resumed
    stream yields are parameters, as are the human's typed lines. */
module QueryLoop {
  import opened Events
  import opened Approval

  /** An entry `_print_step_update` can handle: a node update, or an interrupt tuple with a
      first element (`update[0]` raises IndexError on an empty one) */
  predicate Readable(u: Update) {
    u.InterruptUpdate? ==> u.interrupts != []
  }

  /** What one entry contributes to the collected interrupts */
  function EntryInterrupts(u: Update): (r: Outcome<seq<Interrupt>>)
    ensures r.Ok? <==> Readable(u)
  {
    match u
    case NodeUpdate(_) => Ok([])
    case InterruptUpdate(xs) => if xs == [] then Err(IndexOutOfRange) else Ok([xs[0]])
  }

  /** Both parts in turn: the first failure, or the two lists one after the other */
  function Join(a: Outcome<seq<Interrupt>>, b: Outcome<seq<Interrupt>>): Outcome<seq<Interrupt>> {
    match a
    case Err(e) => Err(e)
    case Ok(xs) =>
      match b
      case Err(e) => Err(e)
      case Ok(ys) => Ok(xs + ys)
  }

  /** The interrupts one step appends, in the order of its entries */
  function StepInterrupts(step: Step): (r: Outcome<seq<Interrupt>>)
    ensures r.Ok? ==> |r.value| <= |step|
  {
    if step == [] then Ok([])
    else
      var n := |step| - 1;
      Join(StepInterrupts(step[..n]), EntryInterrupts(step[n].1))
  }

  /** A step is read without an IndexError exactly when each of its interrupt tuples has a
      first element. */
  lemma {:induction false} StepInterruptsOk(step: Step)
    ensures StepInterrupts(step).Ok? <==> forall k | 0 <= k < |step| :: Readable(step[k].1)
    decreases |step|
  {
    if step != [] {
      var n := |step| - 1;
      StepInterruptsOk(step[..n]);
      assert forall k | 0 <= k < n :: step[..n][k] == step[k];
    }
  }

  /** A step read in two parts appends what each part appends. */
  lemma {:induction false} StepInterruptsAppend(a: Step, b: Step)
    ensures StepInterrupts(a + b) == Join(StepInterrupts(a), StepInterrupts(b))
    decreases |b|
  {
    if b == [] {
      assert a + b == a;
      match StepInterrupts(a)
      case Err(_) =>
      case Ok(xs) => assert xs + [] == xs;
    } else {
      var n := |b| - 1;
      assert (a + b)[..|a + b| - 1] == a + b[..n];
      assert (a + b)[|a + b| - 1] == b[n];
      StepInterruptsAppend(a, b[..n]);
      match StepInterrupts(a)
      case Err(_) =>
      case Ok(xs) =>
        match StepInterrupts(b[..n])
        case Err(_) =>
        case Ok(ys) =>
          match EntryInterrupts(b[n].1)
          case Err(_) =>
          case Ok(zs) => assert xs + ys + zs == xs + (ys + zs);
    }
  }

  /** A node's state update adds no interrupt, wherever it stands in the step. */
  lemma NodeUpdatesIgnored(a: Step, key: string, messages: Option<seq<Message>>, b: Step)
    ensures StepInterrupts(a + [(key, NodeUpdate(messages))] + b) == StepInterrupts(a + b)
  {
    var node := [(key, NodeUpdate(messages))];
    StepInterruptsAppend(a + node, b);
    StepInterruptsAppend(a, node);
    StepInterruptsAppend(a, b);
    assert node[..0] == [];
    match StepInterrupts(a)
    case Err(_) =>
    case Ok(xs) => assert xs + [] == xs;
  }

  /** A step made only of interrupt entries contributes the first interrupt of each entry,
      in order. */
  lemma {:induction false} InterruptEntriesCollected(step: Step)
    requires forall k | 0 <= k < |step| :: step[k].1.InterruptUpdate? && step[k].1.interrupts != []
    ensures StepInterrupts(step).Ok?
    ensures |StepInterrupts(step).value| == |step|
    ensures forall k | 0 <= k < |step| :: StepInterrupts(step).value[k] == step[k].1.interrupts[0]
    decreases |step|
  {
    if step != [] {
      var n := |step| - 1;
      assert forall k | 0 <= k < n :: step[..n][k] == step[k];
      InterruptEntriesCollected(step[..n]);
    }
  }

  /** `_print_step_update(step, interrupts)`: for each entry of the step, a node update's
      messages are printed and an interrupt tuple's first element is appended to the list.
      The new list is returned; an IndexError leaves it behind. */
  method PrintStepUpdate(step: Step, interrupts: seq<Interrupt>) returns (r: Outcome<seq<Interrupt>>)
    ensures r == Join(Ok(interrupts), StepInterrupts(step))
  {
    var collected := interrupts;
    var k := 0;
    assert interrupts + [] == interrupts;
    while k < |step|
      invariant 0 <= k <= |step|
      invariant StepInterrupts(step[..k]).Ok?
      invariant collected == interrupts + StepInterrupts(step[..k]).value
    {
      var update := step[k].1;
      assert step[..k + 1][..k] == step[..k];
      match update {
        case NodeUpdate(_) =>
        case InterruptUpdate(xs) =>
          if xs == [] {
            assert step[..k + 1] == step[..k] + step[k..k + 1];
            StepInterruptsAppend(step[..k + 1], step[k + 1..]);
            assert step[..k + 1] + step[k + 1..] == step;
            return Err(IndexOutOfRange);
          }
          collected := collected + [xs[0]];
      }
      k := k + 1;
    }
    assert step[..k] == step;
    r := Ok(collected);
  }

  /** The interrupts collected over all steps of a stream */
  function CollectAll(steps: seq<Step>): Outcome<seq<Interrupt>> {
    if steps == [] then Ok([])
    else
      var n := |steps| - 1;
      Join(CollectAll(steps[..n]), StepInterrupts(steps[n]))
  }

  /** A stream is read without an IndexError exactly when each of its steps is. */
  lemma {:induction false} CollectAllOk(steps: seq<Step>)
    ensures CollectAll(steps).Ok? <==> forall s | 0 <= s < |steps| :: StepInterrupts(steps[s]).Ok?
    decreases |steps|
  {
    if steps != [] {
      var n := |steps| - 1;
      CollectAllOk(steps[..n]);
      assert forall s | 0 <= s < n :: steps[..n][s] == steps[s];
    }
  }

  /** What a query did: the interrupts it collected and, when it resumed the agent, the
      payload it resumed with */
  datatype Run = Run(collected: seq<Interrupt>, resumed: Option<ResumePayload>)

  /** The query: collect the interrupts of the first stream; when there are any, ask the human;
      when the payload is non-empty, read the resumed stream, whose interrupts are printed
      into a fresh list each step and so never collected. */
  function QueryRun(steps: seq<Step>, lines: seq<string>, resumeSteps: seq<Step>): Outcome<Run> {
    match CollectAll(steps)
    case Err(e) => Err(e)
    case Ok(collected) =>
      if collected == [] then Ok(Run([], None))
      else
        match ResolveAll(collected, lines)
        case Err(e) => Err(e)
        case Ok(payload) =>
          if payload == map[] then Ok(Run(collected, None))
          else
            match CollectAll(resumeSteps)
            case Err(e) => Err(e)
            case Ok(_) => Ok(Run(collected, Some(payload)))
  }

  /** The first stream: every step is printed into the one list of interrupts. */
  method ReadStream(steps: seq<Step>) returns (r: Outcome<seq<Interrupt>>)
    ensures r == CollectAll(steps)
  {
    var interrupts: seq<Interrupt> := [];
    var s := 0;
    while s < |steps|
      invariant 0 <= s <= |steps|
      invariant CollectAll(steps[..s]) == Ok(interrupts)
    {
      assert steps[..s + 1][..s] == steps[..s];
      var outcome := PrintStepUpdate(steps[s], interrupts);
      if outcome.Err? {
        CollectAllFailsFromPrefix(steps[..s + 1], steps[s + 1..]);
        assert steps[..s + 1] + steps[s + 1..] == steps;
        return Err(outcome.failure);
      }
      interrupts := outcome.value;
      s := s + 1;
    }
    assert steps[..s] == steps;
    r := Ok(interrupts);
  }

  /** The resumed stream: every step is printed into a fresh list, which is then dropped;
      only a failure is kept. */
  method ReadResumedStream(steps: seq<Step>) returns (r: Outcome<()>)
    ensures r.Ok? <==> CollectAll(steps).Ok?
    ensures r.Err? ==> r.failure == CollectAll(steps).failure
  {
    var s := 0;
    while s < |steps|
      invariant 0 <= s <= |steps|
      invariant CollectAll(steps[..s]).Ok?
    {
      assert steps[..s + 1][..s] == steps[..s];
      var outcome := PrintStepUpdate(steps[s], []);
      if outcome.Err? {
        CollectAllFailsFromPrefix(steps[..s + 1], steps[s + 1..]);
        assert steps[..s + 1] + steps[s + 1..] == steps;
        return Err(outcome.failure);
      }
      s := s + 1;
    }
    assert steps[..s] == steps;
    r := Ok(());
  }

  /** `process_query`, fed the steps of both streams and the typed lines */
  method ProcessQuery(steps: seq<Step>, lines: seq<string>, resumeSteps: seq<Step>) returns (r: Outcome<Run>)
    ensures r == QueryRun(steps, lines, resumeSteps)
  {
    var interrupts := ReadStream(steps);
    if interrupts.Err? {
      return Err(interrupts.failure);
    }
    if interrupts.value == [] {
      return Ok(Run([], None));
    }
    var payload := HandleHumanApproval(interrupts.value, lines);
    if payload.Err? {
      return Err(payload.failure);
    }
    if payload.value == map[] {
      return Ok(Run(interrupts.value, None));
    }
    var resumed := ReadResumedStream(resumeSteps);
    if resumed.Err? {
      return Err(resumed.failure);
    }
    r := Ok(Run(interrupts.value, Some(payload.value)));
  }

  /** A stream that fails in some step fails there, whatever follows. */
  lemma {:induction false} CollectAllFailsFromPrefix(a: seq<Step>, b: seq<Step>)
    requires CollectAll(a).Err?
    ensures CollectAll(a + b) == CollectAll(a)
    decreases |b|
  {
    if b == [] {
      assert a + b == a;
    } else {
      var n := |b| - 1;
      assert (a + b)[..|a + b| - 1] == a + b[..n];
      CollectAllFailsFromPrefix(a, b[..n]);
    }
  }

  /** The agent is resumed exactly when some collected interrupt carries an action request,
      and then with one decision for each interrupt that does. */
  lemma ResumesExactly(steps: seq<Step>, lines: seq<string>, resumeSteps: seq<Step>)
    requires QueryRun(steps, lines, resumeSteps).Ok?
    ensures var run := QueryRun(steps, lines, resumeSteps).value;
      && run.collected == CollectAll(steps).value
      && (run.resumed.Some? <==> AnsweredIds(run.collected) != {})
      && (run.resumed.Some? ==> run.resumed.value.Keys == AnsweredIds(run.collected))
      && (run.resumed.Some? ==> run.resumed.value == ResolveAll(run.collected, lines).value)
  {
    var collected := CollectAll(steps).value;
    if collected != [] {
      ResumePayloadShape(collected, lines);
    }
  }

  /** Without a collected interrupt, nothing is asked and the agent is not resumed, whatever
      the typed lines and the resumed stream. */
  lemma NoInterruptNoQuestion(steps: seq<Step>, lines: seq<string>, resumeSteps: seq<Step>)
    requires CollectAll(steps) == Ok([])
    ensures QueryRun(steps, lines, resumeSteps) == Ok(Run([], None))
  {
  }
}
