/** The agent harness: one run from its prerequisites through the step loop to its end. */
module HarnessRun {
  import opened Common

  // What a run is given ---------------------------------------------------------------------------

  datatype Message = User(text: string) | Assistant(text: string)

  datatype Call = Call(name: string, args: string)

  datatype Response = Response(content: string, calls: seq<Call>)

  /** The limits of an agent specification. */
  datatype Spec = Spec(maxIterations: nat, maxLlmCalls: nat, maxToolCalls: nat, checkpointEvery: nat)

  /** into_agent_spec: no limit is below one. */
  function IntoAgentSpec(maxIterations: nat, maxLlmCalls: nat, maxToolCalls: nat, checkpointEvery: nat): (s: Spec)
    ensures s.maxIterations >= 1 && s.maxLlmCalls >= 1 && s.maxToolCalls >= 1 && s.checkpointEvery >= 1
    ensures maxIterations >= 1 && maxLlmCalls >= 1 && maxToolCalls >= 1 && checkpointEvery >= 1 ==>
      s == Spec(maxIterations, maxLlmCalls, maxToolCalls, checkpointEvery)
  {
    Spec(Max(maxIterations, 1), Max(maxLlmCalls, 1), Max(maxToolCalls, 1), Max(checkpointEvery, 1))
  }

  /** What the text predicates find in the input. */
  datatype Input = Input(
    mailAssistant: bool, empty: bool, asksForRows: bool, asksWhatIsAvailable: bool,
    preparationCount: bool, asksForMailCount: bool
  )

  predicate RequiresList(i: Input) { i.mailAssistant && !i.empty && (i.asksForRows || i.asksWhatIsAvailable) }

  predicate RequiresCount(i: Input) {
    i.mailAssistant && !(i.preparationCount || RequiresList(i)) && i.asksForMailCount
  }

  const COUNT_TOOL: string := "count_emails"
  const LIST_TOOL: string := "list_synced_emails"

  /** The tools that run before the first step. */
  function Prerequisites(i: Input): seq<string> {
    (if RequiresCount(i) then [COUNT_TOOL] else []) + (if RequiresList(i) then [LIST_TOOL] else [])
  }

  lemma AtMostOnePrerequisite(i: Input)
    ensures |Prerequisites(i)| <= 1
    ensures RequiresCount(i) <==> Prerequisites(i) == [COUNT_TOOL]
    ensures RequiresList(i) <==> Prerequisites(i) == [LIST_TOOL]
    ensures Prerequisites(i) == ["list_synced_emails"] <==>
      i.mailAssistant && !i.empty && (i.asksForRows || i.asksWhatIsAvailable)
    ensures Prerequisites(i) == ["count_emails"] <==>
      i.mailAssistant && i.asksForMailCount && !i.preparationCount && (i.empty || !(i.asksForRows || i.asksWhatIsAvailable))
  {
    assert |COUNT_TOOL| != |LIST_TOOL|;
    assert [COUNT_TOOL][0] != [LIST_TOOL][0];
    assert [COUNT_TOOL] + [] == [COUNT_TOOL] && [] + [LIST_TOOL] == [LIST_TOOL];
  }

  /** How response texts are read and what is said back; pure functions of the text. */
  datatype Reader = Reader(
    toolCall: string -> Option<Call>,
    scratchpad: string -> Option<string>,
    validate: string -> Result<string>,
    promises: string -> bool,
    announces: string -> string,
    correction: string -> string,
    nudge: string
  )

  /**
   * What the provider, the tools and the store do in one step. A tool call has no result if it fails or
   * cannot be logged. The store can fail to record the step, the provider's call, the number of tool
   * calls or the output, each of which ends the run, and to save a checkpoint, which does not.
   */
  datatype Turn = Turn(
    response: Option<Response>, results: nat -> Option<string>, scratchpad: Option<string>,
    recordsStep: bool, recordsCall: bool, recordsTools: bool, finishes: bool, saves: bool
  )

  datatype Agent = Agent(spec: Spec, input: Input, reader: Reader)

  type Turns = nat -> Turn

  // What happens in a step --------------------------------------------------------------------------

  /** The response's own calls, else a call written as JSON in its text. */
  function CallsOf(a: Agent, r: Response): seq<Call> {
    if r.calls != [] then r.calls
    else match a.reader.toolCall(r.content) case Some(c) => [c] case None => []
  }

  function CallsAt(a: Agent, turns: Turns, k: nat): seq<Call> {
    match turns(k).response case Some(r) => CallsOf(a, r) case None => []
  }

  predicate UsesScratchpad(a: Agent, turns: Turns, k: nat) {
    match turns(k).response
    case Some(r) => CallsOf(a, r) == [] && a.reader.scratchpad(r.content).Some?
    case None => false
  }

  predicate ResultsFor(turns: Turns, k: nat, n: nat) { forall j :: 0 <= j < n ==> turns(k).results(j).Some? }

  function Given(text: Option<string>): string { match text case Some(t) => t case None => "" }

  /** The tool results, one paragraph a call. */
  function ResultText(calls: seq<Call>, results: nat -> Option<string>, n: nat): string
    requires n <= |calls|
  {
    if n == 0 then ""
    else
      ResultText(calls, results, n - 1) + (if n == 1 then "" else "\n\n")
      + ("[" + calls[n - 1].name + "]: " + Given(results(n - 1)))
  }

  /** A valid output that is not accepted: it promises the mailbox tool call that has been made already. */
  predicate Deferred(a: Agent, output: string) { Prerequisites(a.input) != [] && a.reader.promises(output) }

  function CallCount(a: Agent, turns: Turns, k: nat): nat {
    if k == 0 then 0 else CallCount(a, turns, k - 1) + |CallsAt(a, turns, k - 1)|
  }

  /** How many tool calls have been made before step k. */
  function ToolsBefore(a: Agent, turns: Turns, k: nat): nat { |Prerequisites(a.input)| + CallCount(a, turns, k) }

  predicate WithinToolBudget(a: Agent, turns: Turns, k: nat) {
    ToolsBefore(a, turns, k) + |CallsAt(a, turns, k)| <= a.spec.maxToolCalls
  }

  /** Step k ends in an exchange of messages and the next one follows. */
  predicate GoesOn(a: Agent, turns: Turns, k: nat) {
    turns(k).recordsStep && turns(k).recordsCall &&
    match turns(k).response
    case None => false
    case Some(r) =>
      var calls := CallsOf(a, r);
      if calls != [] then WithinToolBudget(a, turns, k) && ResultsFor(turns, k, |calls|) && turns(k).recordsTools
      else if a.reader.scratchpad(r.content).Some? then turns(k).scratchpad.Some?
      else match a.reader.validate(r.content) case Ok(output) => Deferred(a, output) case Err(_) => true
  }

  predicate AllGoOn(a: Agent, turns: Turns, k: nat) { forall i :: 0 <= i < k ==> GoesOn(a, turns, i) }

  /** What step k says back, if it goes on. */
  function Reply(a: Agent, turns: Turns, k: nat): string {
    match turns(k).response
    case None => ""
    case Some(r) =>
      var calls := CallsOf(a, r);
      if calls != [] then ResultText(calls, turns(k).results, |calls|)
      else if a.reader.scratchpad(r.content).Some? then Given(turns(k).scratchpad)
      else match a.reader.validate(r.content) case Ok(_) => a.reader.nudge case Err(e) => a.reader.correction(e)
  }

  function Content(turns: Turns, k: nat): string {
    match turns(k).response case Some(r) => r.content case None => ""
  }

  /** What step k adds to the transcript: the model's text and the reply. */
  function Exchange(a: Agent, turns: Turns, k: nat): seq<Message> {
    [Assistant(Content(turns, k)), User(Reply(a, turns, k))]
  }

  /** The messages at the head of step k. */
  function Transcript(a: Agent, base: seq<Message>, turns: Turns, k: nat): seq<Message> {
    if k == 0 then base
    else Transcript(a, base, turns, k - 1) + Exchange(a, turns, k - 1)
  }

  function Names(calls: seq<Call>): seq<string> { if calls == [] then [] else Names(calls[..|calls| - 1]) + [calls[|calls| - 1].name] }

  /** The tools run before step k, in order. */
  function ToolNames(a: Agent, turns: Turns, k: nat): seq<string> {
    if k == 0 then Prerequisites(a.input) else ToolNames(a, turns, k - 1) + Names(CallsAt(a, turns, k - 1))
  }

  datatype Checkpoint = Checkpoint(step: nat, messages: seq<Message>)

  predicate SavesAt(a: Agent, turns: Turns, k: nat)
    requires a.spec.checkpointEvery > 0
  {
    (CallsAt(a, turns, k) != [] || UsesScratchpad(a, turns, k)) && (k + 1) % a.spec.checkpointEvery == 0 && turns(k).saves
  }

  /** The checkpoints saved before step k. */
  function Checkpoints(a: Agent, base: seq<Message>, turns: Turns, k: nat): seq<Checkpoint>
    requires a.spec.checkpointEvery > 0
  {
    if k == 0 then []
    else
      Checkpoints(a, base, turns, k - 1)
      + if SavesAt(a, turns, k - 1) then [Checkpoint(k - 1, Transcript(a, base, turns, k))] else []
  }

  // How a run ends ----------------------------------------------------------------------------------

  datatype End =
    | PrerequisiteFailed
    | Finished(output: string)
    | LlmBudget
    | ToolBudget
    | IterationsUsedUp
    | StepNotRecorded
    | ProviderFailed
    | CallNotRecorded
    | ToolFailed(done: nat)
    | ToolsNotRecorded
    | ScratchpadFailed
    | OutputNotRecorded(output: string)

  /** The end reached in step k, every earlier step having gone on. */
  ghost predicate EndsAt(a: Agent, turns: Turns, k: nat, end: End) {
    && AllGoOn(a, turns, k)
    && k <= a.spec.maxIterations && k <= a.spec.maxLlmCalls
    && if k == a.spec.maxIterations then end == IterationsUsedUp
       else if k == a.spec.maxLlmCalls then end == LlmBudget
       else if !turns(k).recordsStep then end == StepNotRecorded
       else
         match turns(k).response
         case None => end == ProviderFailed
         case Some(r) => if turns(k).recordsCall then EndsInResponse(a, turns, k, r, end) else end == CallNotRecorded
  }

  ghost predicate EndsInResponse(a: Agent, turns: Turns, k: nat, r: Response, end: End) {
    var calls := CallsOf(a, r);
    if calls != [] then
      if !WithinToolBudget(a, turns, k) then end == ToolBudget
      else if end.ToolFailed? then end.done < |calls| && ResultsFor(turns, k, end.done) && turns(k).results(end.done).None?
      else end == ToolsNotRecorded && ResultsFor(turns, k, |calls|) && !turns(k).recordsTools
    else if a.reader.scratchpad(r.content).Some? then end == ScratchpadFailed && turns(k).scratchpad.None?
    else
      match a.reader.validate(r.content)
      case Err(_) => false
      case Ok(output) =>
        !Deferred(a, output) && end == if turns(k).finishes then Finished(output) else OutputNotRecorded(output)
  }

  /** What a run leaves behind. */
  datatype Account = Account(messages: seq<Message>, llmCalls: nat, toolCalls: nat, used: seq<string>, saved: seq<Checkpoint>)

  /** The account at the head of step k. */
  ghost predicate AccountAt(a: Agent, base: seq<Message>, turns: Turns, k: nat, c: Account)
    requires a.spec.checkpointEvery > 0
  {
    && AllGoOn(a, turns, k)
    && c.messages == Transcript(a, base, turns, k)
    && c.llmCalls == k
    && c.toolCalls == ToolsBefore(a, turns, k)
    && c.used == ToolNames(a, turns, k)
    && c.saved == Checkpoints(a, base, turns, k)
  }

  /** The tool calls made in a run that ended so. */
  function ToolsMade(a: Agent, turns: Turns, k: nat, end: End): nat {
    ToolsBefore(a, turns, k) +
      match end case ToolFailed(done) => done case ToolsNotRecorded => |CallsAt(a, turns, k)| case _ => 0
  }

  // The code ------------------------------------------------------------------------------------------

  /** Runs the calls of one response in order, as far as they succeed. */
  method ExecuteTools(calls: seq<Call>, results: nat -> Option<string>, used: seq<string>)
    returns (done: nat, text: string, used': seq<string>)
    ensures done <= |calls| && forall j :: 0 <= j < done ==> results(j).Some?
    ensures done < |calls| ==> results(done).None?
    ensures text == ResultText(calls, results, done)
    ensures used' == used + Names(calls[..done])
  {
    done, text, used' := 0, "", used;
    while done < |calls|
      invariant done <= |calls| && forall j :: 0 <= j < done ==> results(j).Some?
      invariant text == ResultText(calls, results, done)
      invariant used' == used + Names(calls[..done])
    {
      if results(done).None? { return; }
      var part := "[" + calls[done].name + "]: " + results(done).value;
      text := text + (if done == 0 then "" else "\n\n") + part;
      assert calls[..done + 1][..done] == calls[..done];
      used' := used' + [calls[done].name];
      done := done + 1;
    }
  }

  method SaveCheckpoint(a: Agent, step: nat, c: Account, saves: bool) returns (c': Account)
    requires a.spec.checkpointEvery > 0
    ensures c' == c.(saved := c.saved + if (step + 1) % a.spec.checkpointEvery == 0 && saves then [Checkpoint(step, c.messages)] else [])
  {
    c' := c;
    if (step + 1) % a.spec.checkpointEvery == 0 && saves {
      c' := c'.(saved := c'.saved + [Checkpoint(step, c'.messages)]);
    }
  }

  lemma {:induction false} PrerequisiteIsUsed(a: Agent, turns: Turns, k: nat, name: string)
    requires name in Prerequisites(a.input)
    ensures name in ToolNames(a, turns, k)
  {
    if k > 0 { PrerequisiteIsUsed(a, turns, k - 1, name); }
  }

  lemma AccountGoesOn(a: Agent, base: seq<Message>, turns: Turns, k: nat, c: Account, c': Account)
    requires a.spec.checkpointEvery > 0 && AccountAt(a, base, turns, k, c) && GoesOn(a, turns, k)
    requires c'.messages == c.messages + Exchange(a, turns, k)
    requires c'.llmCalls == k + 1
    requires c'.toolCalls == c.toolCalls + |CallsAt(a, turns, k)|
    requires c'.used == c.used + Names(CallsAt(a, turns, k))
    requires c'.saved == c.saved + if SavesAt(a, turns, k) then [Checkpoint(k, c'.messages)] else []
    ensures AccountAt(a, base, turns, k + 1, c')
  {
    OneMoreGoesOn(a, turns, k);
    OneMoreExchange(a, base, turns, k);
    OneMoreTurn(a, turns, k);
    OneMoreCheckpoint(a, base, turns, k);
  }

  lemma OneMoreGoesOn(a: Agent, turns: Turns, k: nat)
    requires AllGoOn(a, turns, k) && GoesOn(a, turns, k)
    ensures AllGoOn(a, turns, k + 1)
  {
  }

  lemma OneMoreExchange(a: Agent, base: seq<Message>, turns: Turns, k: nat)
    ensures Transcript(a, base, turns, k + 1) == Transcript(a, base, turns, k) + Exchange(a, turns, k)
  {
  }

  lemma OneMoreTurn(a: Agent, turns: Turns, k: nat)
    ensures ToolsBefore(a, turns, k + 1) == ToolsBefore(a, turns, k) + |CallsAt(a, turns, k)|
    ensures ToolNames(a, turns, k + 1) == ToolNames(a, turns, k) + Names(CallsAt(a, turns, k))
  {
  }

  lemma OneMoreCheckpoint(a: Agent, base: seq<Message>, turns: Turns, k: nat)
    requires a.spec.checkpointEvery > 0
    ensures Checkpoints(a, base, turns, k + 1)
         == Checkpoints(a, base, turns, k) + if SavesAt(a, turns, k) then [Checkpoint(k, Transcript(a, base, turns, k + 1))] else []
  {
  }

  method ToolStep(a: Agent, ghost base: seq<Message>, turns: Turns, step: nat, r: Response, before: Account)
    returns (end: Option<End>, c: Account)
    requires a.spec.checkpointEvery > 0 && turns(step).response == Some(r) && CallsOf(a, r) != []
    requires turns(step).recordsStep && turns(step).recordsCall
    requires AccountAt(a, base, turns, step, before.(llmCalls := step)) && before.llmCalls == step + 1
    ensures end.Some? ==> EndsInResponse(a, turns, step, r, end.value) && c.llmCalls == step + 1
                          && c.toolCalls == ToolsMade(a, turns, step, end.value)
    ensures end.None? ==> AccountAt(a, base, turns, step + 1, c)
  {
    c := before;
    var calls := CallsOf(a, r);
    if c.toolCalls + |calls| > a.spec.maxToolCalls { return Some(ToolBudget), c; }
    var done, text, used := ExecuteTools(calls, turns(step).results, c.used);
    c := c.(used := used, toolCalls := c.toolCalls + done);
    if done < |calls| { return Some(ToolFailed(done)), c; }
    if !turns(step).recordsTools { return Some(ToolsNotRecorded), c; }
    assert calls[..done] == calls;
    c := c.(messages := c.messages + [Assistant(r.content)] + [User(text)]);
    c := SaveCheckpoint(a, step, c, turns(step).saves);
    assert before.messages + [Assistant(r.content)] + [User(text)] == before.messages + [Assistant(r.content), User(text)];
    AccountGoesOn(a, base, turns, step, before.(llmCalls := step), c);
    end := None;
  }

  method TextStep(a: Agent, ghost base: seq<Message>, turns: Turns, step: nat, r: Response, before: Account)
    returns (end: Option<End>, c: Account)
    requires a.spec.checkpointEvery > 0 && turns(step).response == Some(r) && CallsOf(a, r) == []
    requires turns(step).recordsStep && turns(step).recordsCall
    requires AccountAt(a, base, turns, step, before.(llmCalls := step)) && before.llmCalls == step + 1
    ensures end.Some? ==> EndsInResponse(a, turns, step, r, end.value) && c.llmCalls == step + 1
                          && c.toolCalls == ToolsMade(a, turns, step, end.value)
    ensures end.None? ==> AccountAt(a, base, turns, step + 1, c)
  {
    c := before;
    var reply;
    var save := false;
    if a.reader.scratchpad(r.content).Some? {
      if turns(step).scratchpad.None? { return Some(ScratchpadFailed), c; }
      reply := turns(step).scratchpad.value;
      save := true;
    } else {
      match a.reader.validate(r.content)
      case Ok(output) =>
        AtMostOnePrerequisite(a.input);
        // The required tool has run before the first step, so the two requests to call it are dead code.
        if RequiresCount(a.input) && COUNT_TOOL !in c.used {
          PrerequisiteIsUsed(a, turns, step, COUNT_TOOL);
          assert false;
        }
        if RequiresList(a.input) && LIST_TOOL !in c.used {
          PrerequisiteIsUsed(a, turns, step, LIST_TOOL);
          assert false;
        }
        if !((RequiresCount(a.input) || RequiresList(a.input)) && a.reader.promises(output)) {
          return Some(if turns(step).finishes then Finished(output) else OutputNotRecorded(output)), c;
        }
        reply := a.reader.nudge;
      case Err(error) =>
        reply := a.reader.correction(error);
    }
    c := c.(messages := c.messages + [Assistant(r.content)] + [User(reply)]);
    if save { c := SaveCheckpoint(a, step, c, turns(step).saves); }
    assert before.messages + [Assistant(r.content)] + [User(reply)] == before.messages + [Assistant(r.content), User(reply)];
    assert Names([]) == [] && before.used + [] == before.used && before.saved + [] == before.saved;
    AccountGoesOn(a, base, turns, step, before.(llmCalls := step), c);
    end := None;
  }

  /** The prerequisite calls, without a result if the call or a record of it fails; their results are shown to the model before the first step. */
  function Announced(a: Agent, results: nat -> Option<string>): seq<Message>
    requires Prerequisites(a.input) != [] ==> results(0).Some?
  {
    if Prerequisites(a.input) == [] then []
    else [User(a.reader.announces(Prerequisites(a.input)[0]) + results(0).value)]
  }

  method RunPrerequisites(a: Agent, start: seq<Message>, results: nat -> Option<string>)
    returns (ok: bool, messages: seq<Message>, used: seq<string>, calls: nat)
    ensures ok ==> used == Prerequisites(a.input) && calls == |used|
    ensures ok ==> (used != [] ==> results(0).Some?) && messages == start + Announced(a, results)
    ensures !ok ==> Prerequisites(a.input) != [] && results(0).None? && calls == 0
  {
    messages, used, calls := start, [], 0;
    AtMostOnePrerequisite(a.input);
    if RequiresCount(a.input) && COUNT_TOOL !in used {
      if results(calls).None? { return false, messages, used, calls; }
      used := used + [COUNT_TOOL];
      messages := messages + [User(a.reader.announces(COUNT_TOOL) + results(calls).value)];
      calls := calls + 1;
    }
    if RequiresList(a.input) && LIST_TOOL !in used {
      if results(calls).None? { return false, messages, used, calls; }
      used := used + [LIST_TOOL];
      messages := messages + [User(a.reader.announces(LIST_TOOL) + results(calls).value)];
      calls := calls + 1;
    }
    ok := true;
  }

  /**
   * A run. Its base is the checkpointed transcript if there is one, else the initial messages, with the
   * prerequisite's result behind it. What the run does then is fixed step by step by what it is answered.
   */
  method RunWithCallback(a: Agent, initial: seq<Message>, checkpoint: Option<seq<Message>>,
                         prerequisiteResults: nat -> Option<string>, turns: Turns)
    returns (end: End, k: nat, base: seq<Message>, c: Account)
    requires a.spec.checkpointEvery > 0
    ensures var start := match checkpoint case Some(m) => m case None => initial;
            !end.PrerequisiteFailed? ==>
              && (Prerequisites(a.input) == [] ==> base == start)
              && (Prerequisites(a.input) != [] ==>
                    prerequisiteResults(0).Some?
                    && base == start + [User(a.reader.announces(Prerequisites(a.input)[0]) + prerequisiteResults(0).value)])
    ensures end.PrerequisiteFailed? ==> k == 0 && c.llmCalls == 0 && c.toolCalls == 0
    ensures !end.PrerequisiteFailed? ==> EndsAt(a, turns, k, end) && c.toolCalls == ToolsMade(a, turns, k, end)
    ensures end.IterationsUsedUp? || end.LlmBudget? ==> AccountAt(a, base, turns, k, c)
    ensures !end.PrerequisiteFailed? ==>
      c.llmCalls == CallsMade(k, end)
  {
    var messages := initial;
    if checkpoint.Some? { messages := checkpoint.value; }
    var ok, used, calls;
    ok, messages, used, calls := RunPrerequisites(a, messages, prerequisiteResults);
    base, k, c := messages, 0, Account(messages, 0, calls, used, []);
    if !ok { return PrerequisiteFailed, 0, base, c; }
    end, k, c := RunSteps(a, base, turns, c);
  }

  /** One pass of the step loop, from its head. */
  method OneStep(a: Agent, ghost base: seq<Message>, turns: Turns, k: nat, before: Account) returns (end: Option<End>, c: Account)
    requires a.spec.checkpointEvery > 0 && AccountAt(a, base, turns, k, before)
    requires k < a.spec.maxIterations && k <= a.spec.maxLlmCalls
    ensures end.None? ==> AccountAt(a, base, turns, k + 1, c) && k < a.spec.maxLlmCalls
    ensures end.Some? ==> EndsAt(a, turns, k, end.value) && c.toolCalls == ToolsMade(a, turns, k, end.value)
                          && c.llmCalls == CallsMade(k, end.value)
    ensures end == Some(LlmBudget) ==> AccountAt(a, base, turns, k, c)
    ensures end != Some(IterationsUsedUp)
  {
    c := before;
    if c.llmCalls >= a.spec.maxLlmCalls { return Some(LlmBudget), c; }
    if !turns(k).recordsStep { return Some(StepNotRecorded), c; }
    if turns(k).response.None? { return Some(ProviderFailed), c; }
    var r := turns(k).response.value;
    c := c.(llmCalls := c.llmCalls + 1);
    assert c.(llmCalls := k) == before;
    if !turns(k).recordsCall { return Some(CallNotRecorded), c; }
    if CallsOf(a, r) != [] {
      end, c := ToolStep(a, base, turns, k, r, c);
    } else {
      end, c := TextStep(a, base, turns, k, r, c);
    }
  }

  /** The calls of the provider that were answered in a run that ended so in step k. */
  function CallsMade(k: nat, end: End): nat {
    if end.IterationsUsedUp? || end.LlmBudget? || end.StepNotRecorded? || end.ProviderFailed? then k else k + 1
  }

  /** The step loop. */
  method RunSteps(a: Agent, ghost base: seq<Message>, turns: Turns, start: Account) returns (end: End, k: nat, c: Account)
    requires a.spec.checkpointEvery > 0 && AccountAt(a, base, turns, 0, start)
    ensures EndsAt(a, turns, k, end) && c.toolCalls == ToolsMade(a, turns, k, end)
    ensures end.IterationsUsedUp? || end.LlmBudget? ==> AccountAt(a, base, turns, k, c)
    ensures c.llmCalls == CallsMade(k, end)
  {
    k, c := 0, start;
    while k < a.spec.maxIterations
      invariant AccountAt(a, base, turns, k, c)
      invariant k <= a.spec.maxIterations && k <= a.spec.maxLlmCalls
    {
      var over;
      over, c := OneStep(a, base, turns, k, c);
      if over.Some? { return over.value, k, c; }
      k := k + 1;
    }
    end := IterationsUsedUp;
  }

  // What follows --------------------------------------------------------------------------------------

  /** The end is determined by the answers. */
  lemma EndIsUnique(a: Agent, turns: Turns, k: nat, end: End, k': nat, end': End)
    requires EndsAt(a, turns, k, end) && EndsAt(a, turns, k', end')
    ensures k == k' && end == end'
  {
    EndsOnlyOnce(a, turns, k, end, k');
    EndsOnlyOnce(a, turns, k', end', k);
  }

  lemma EndStops(a: Agent, turns: Turns, k: nat, end: End)
    requires EndsAt(a, turns, k, end) && k < a.spec.maxIterations && k < a.spec.maxLlmCalls
    ensures !GoesOn(a, turns, k)
  {
  }

  lemma EndsOnlyOnce(a: Agent, turns: Turns, k: nat, end: End, later: nat)
    requires EndsAt(a, turns, k, end) && AllGoOn(a, turns, later)
    requires later <= a.spec.maxIterations && later <= a.spec.maxLlmCalls
    ensures later <= k
  {
    if k < later { EndStops(a, turns, k, end); }
  }

  lemma {:induction false} TranscriptLength(a: Agent, base: seq<Message>, turns: Turns, k: nat)
    ensures |Transcript(a, base, turns, k)| == |base| + 2 * k
  {
    if k > 0 { TranscriptLength(a, base, turns, k - 1); }
  }

  /** Earlier transcripts are prefixes of later ones: no step rewrites what was said. */
  lemma {:induction false} TranscriptGrows(a: Agent, base: seq<Message>, turns: Turns, i: nat, k: nat)
    requires i <= k
    ensures Transcript(a, base, turns, i) <= Transcript(a, base, turns, k)
    decreases k
  {
    if i < k { TranscriptGrows(a, base, turns, i, k - 1); }
  }

  /** At the head of step k the transcript is the base and one exchange a step, in order. */
  lemma {:induction false} TranscriptShape(a: Agent, base: seq<Message>, turns: Turns, k: nat, i: nat)
    requires i < k
    ensures IsAt(Exchange(a, turns, i), Transcript(a, base, turns, k), |base| + 2 * i)
    decreases k
  {
    var before, last := Transcript(a, base, turns, k - 1), Exchange(a, turns, k - 1);
    if i == k - 1 {
      TranscriptLength(a, base, turns, i);
      AtEnd(before, last);
    } else {
      TranscriptShape(a, base, turns, k - 1, i);
      AtStill(Exchange(a, turns, i), before, last, |base| + 2 * i);
    }
  }

  ghost predicate IsAt<T>(part: seq<T>, whole: seq<T>, at: nat) {
    at + |part| <= |whole| && whole[at..at + |part|] == part
  }

  lemma AtEnd<T>(s: seq<T>, part: seq<T>)
    ensures IsAt(part, s + part, |s|)
  {
  }

  lemma AtStill<T>(part: seq<T>, s: seq<T>, more: seq<T>, at: nat)
    requires IsAt(part, s, at)
    ensures IsAt(part, s + more, at)
  {
    assert (s + more)[at..at + |part|] == s[at..at + |part|];
  }

  /** Every checkpoint holds the transcript at the head of the step after the one it is named for. */
  lemma {:induction false} CheckpointsAreTranscripts(a: Agent, base: seq<Message>, turns: Turns, k: nat, c: Checkpoint)
    requires a.spec.checkpointEvery > 0
    requires c in Checkpoints(a, base, turns, k)
    ensures c.step < k && SavesAt(a, turns, c.step)
    ensures c.messages == Transcript(a, base, turns, c.step + 1) && |c.messages| == |base| + 2 * (c.step + 1)
  {
    if c in Checkpoints(a, base, turns, k - 1) {
      CheckpointsAreTranscripts(a, base, turns, k - 1, c);
    } else {
      TranscriptLength(a, base, turns, k);
    }
  }

  lemma {:induction false} StepsStayWithinToolBudget(a: Agent, turns: Turns, k: nat)
    requires AllGoOn(a, turns, k)
    ensures ToolsBefore(a, turns, k) <= Max(a.spec.maxToolCalls, |Prerequisites(a.input)|)
  {
    if k > 0 {
      StepsStayWithinToolBudget(a, turns, k - 1);
      assert GoesOn(a, turns, k - 1);
    }
  }

  /** Whatever is answered, the tool calls stay within their budget. */
  ghost predicate ToolBudgetAlwaysKept(a: Agent) {
    forall turns: Turns, k: nat, end :: EndsAt(a, turns, k, end) ==> ToolsMade(a, turns, k, end) <= a.spec.maxToolCalls
  }

  /**
   * The budget of tool calls holds in every run although prerequisites are not checked against it:
   * exactly when it leaves room for them.
   */
  lemma ToolBudgetKeptIff(a: Agent)
    requires a.spec.maxIterations > 0 && a.spec.maxLlmCalls > 0
    ensures ToolBudgetAlwaysKept(a) <==> |Prerequisites(a.input)| <= a.spec.maxToolCalls
  {
    if |Prerequisites(a.input)| <= a.spec.maxToolCalls {
      forall turns: Turns, k: nat, end | EndsAt(a, turns, k, end)
        ensures ToolsMade(a, turns, k, end) <= a.spec.maxToolCalls
      {
        StepsStayWithinToolBudget(a, turns, k);
      }
    } else {
      var silent: Turns := (k: nat) => Turn(None, (j: nat) => None, None, true, true, true, true, true);
      assert EndsAt(a, silent, 0, ProviderFailed) && ToolsMade(a, silent, 0, ProviderFailed) > a.spec.maxToolCalls;
    }
  }

  /** A parsed specification always leaves room: limits are at least one and at most one prerequisite runs. */
  lemma ParsedSpecKeepsBudgets(a: Agent, i: nat, l: nat, t: nat, e: nat)
    requires a.spec == IntoAgentSpec(i, l, t, e)
    ensures ToolBudgetAlwaysKept(a)
    ensures forall turns: Turns, k: nat, end :: EndsAt(a, turns, k, end) ==> CallsMade(k, end) <= a.spec.maxLlmCalls
  {
    AtMostOnePrerequisite(a.input);
    ToolBudgetKeptIff(a);
  }
}
