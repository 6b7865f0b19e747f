/** What a step of the harness makes of the provider's answer. */
module HarnessSteps {
  import opened Common
  import opened HarnessRun

  /** The step is reached, recorded and answered. */
  ghost predicate Answered(a: Agent, turns: Turns, k: nat, r: Response) {
    && AllGoOn(a, turns, k) && k < a.spec.maxIterations && k < a.spec.maxLlmCalls
    && turns(k).recordsStep && turns(k).response == Some(r) && turns(k).recordsCall
  }

  /** The response asks for these tool calls: its own, or if it has none, one written in its text. */
  predicate AsksFor(a: Agent, r: Response, calls: seq<Call>) {
    if |r.calls| > 0 then calls == r.calls
    else
      match a.reader.toolCall(r.content)
      case Some(call) => calls == [call]
      case None => calls == []
  }

  lemma AsksForItsCalls(a: Agent, turns: Turns, k: nat, r: Response, calls: seq<Call>)
    requires turns(k).response == Some(r) && AsksFor(a, r, calls)
    ensures CallsAt(a, turns, k) == calls
  {
  }

  // Tool calls ----------------------------------------------------------------------------------------

  /** Paragraphs with a blank line between them. */
  function Paragraphs(ps: seq<string>): string {
    if ps == [] then "" else if |ps| == 1 then ps[0] else ps[0] + ("\n\n" + Paragraphs(ps[1..]))
  }

  lemma {:induction false} ParagraphsSnoc(ps: seq<string>, last: string)
    requires ps != []
    ensures Paragraphs(ps + [last]) == Paragraphs(ps) + "\n\n" + last
  {
    assert (ps + [last])[1..] == ps[1..] + [last];
    if |ps| > 1 {
      ParagraphsSnoc(ps[1..], last);
      var tail := Paragraphs(ps[1..]);
      assert ps[0] + ("\n\n" + (tail + "\n\n" + last)) == (ps[0] + ("\n\n" + tail)) + "\n\n" + last;
    } else {
      assert ps[1..] + [last] == [last];
      assert ps[0] + ("\n\n" + last) == ps[0] + "\n\n" + last;
    }
  }

  /** A paragraph a call, headed by the tool's name. */
  ghost predicate Reports(ps: seq<string>, calls: seq<Call>, results: nat -> Option<string>) {
    && |ps| == |calls|
    && forall i :: 0 <= i < |calls| ==> results(i).Some? && ps[i] == "[" + calls[i].name + "]: " + results(i).value
  }

  lemma {:induction false} ResultTextIsParagraphs(calls: seq<Call>, results: nat -> Option<string>, n: nat) returns (ps: seq<string>)
    requires n <= |calls| && forall j :: 0 <= j < n ==> results(j).Some?
    ensures Reports(ps, calls[..n], results) && Paragraphs(ps) == ResultText(calls, results, n)
  {
    ps := [];
    if n > 0 {
      var before := ResultTextIsParagraphs(calls, results, n - 1);
      var last := "[" + calls[n - 1].name + "]: " + results(n - 1).value;
      ps := before + [last];
      if n > 1 { ParagraphsSnoc(before, last); }
      assert "" + "" + last == last;
      forall i | 0 <= i < n ensures ps[i] == "[" + calls[..n][i].name + "]: " + results(i).value {
        if i < n - 1 { assert ps[i] == before[i] && calls[..n - 1][i] == calls[..n][i]; }
      }
    }
  }

  lemma {:induction false} NamesInOrder(calls: seq<Call>)
    ensures |Names(calls)| == |calls| && forall i :: 0 <= i < |calls| ==> Names(calls)[i] == calls[i].name
  {
    if calls != [] {
      NamesInOrder(calls[..|calls| - 1]);
      forall i | 0 <= i < |calls| ensures Names(calls)[i] == calls[i].name {
        if i < |calls| - 1 { assert calls[..|calls| - 1][i] == calls[i]; }
      }
    }
  }

  /**
   * A step that asks for tool calls and goes on has made all of them, in order and within the budget, and
   * says back their results, a paragraph each.
   */
  lemma ToolCallsAreMade(a: Agent, base: seq<Message>, turns: Turns, k: nat, r: Response, calls: seq<Call>, c: Account, c': Account)
    returns (ps: seq<string>)
    requires a.spec.checkpointEvery > 0 && AccountAt(a, base, turns, k, c) && AccountAt(a, base, turns, k + 1, c')
    requires turns(k).response == Some(r) && AsksFor(a, r, calls) && calls != []
    ensures |c'.used| == |c.used| + |calls| && c.used <= c'.used
    ensures forall i :: 0 <= i < |calls| ==> c'.used[|c.used| + i] == calls[i].name
    ensures c'.toolCalls == c.toolCalls + |calls| <= a.spec.maxToolCalls
    ensures Reports(ps, calls, turns(k).results)
    ensures c'.messages == c.messages + [Assistant(r.content), User(Paragraphs(ps))]
  {
    AsksForItsCalls(a, turns, k, r, calls);
    assert GoesOn(a, turns, k);
    NamesInOrder(calls);
    ps := ResultTextIsParagraphs(calls, turns(k).results, |calls|);
    assert calls[..|calls|] == calls;
  }

  /** A step asking for more calls than the budget has left ends the run there, and any other end leaves room for them. */
  lemma ToolBudgetIsChecked(a: Agent, base: seq<Message>, turns: Turns, k: nat, r: Response, calls: seq<Call>, c: Account)
    requires a.spec.checkpointEvery > 0 && AccountAt(a, base, turns, k, c)
    requires Answered(a, turns, k, r) && AsksFor(a, r, calls) && calls != []
    ensures EndsAt(a, turns, k, ToolBudget) <==> c.toolCalls + |calls| > a.spec.maxToolCalls
    ensures forall end :: EndsAt(a, turns, k, end) && end != ToolBudget ==> c.toolCalls + |calls| <= a.spec.maxToolCalls
  {
    AsksForItsCalls(a, turns, k, r, calls);
  }

  /** Within the budget, the first call without a result ends the run, and if there is none, a count that is not recorded. */
  lemma ToolFailureEnds(a: Agent, base: seq<Message>, turns: Turns, k: nat, r: Response, calls: seq<Call>, c: Account)
    requires a.spec.checkpointEvery > 0 && AccountAt(a, base, turns, k, c)
    requires Answered(a, turns, k, r) && AsksFor(a, r, calls) && calls != []
    requires c.toolCalls + |calls| <= a.spec.maxToolCalls
    ensures forall d: nat :: EndsAt(a, turns, k, ToolFailed(d)) <==>
      d < |calls| && turns(k).results(d).None? && forall j :: 0 <= j < d ==> turns(k).results(j).Some?
    ensures EndsAt(a, turns, k, ToolsNotRecorded) <==>
      (forall j :: 0 <= j < |calls| ==> turns(k).results(j).Some?) && !turns(k).recordsTools
    ensures (exists end :: EndsAt(a, turns, k, end)) <==> !GoesOn(a, turns, k)
  {
    AsksForItsCalls(a, turns, k, r, calls);
    if !GoesOn(a, turns, k) {
      if forall j :: 0 <= j < |calls| ==> turns(k).results(j).Some? {
        assert EndsAt(a, turns, k, ToolsNotRecorded);
      } else {
        var d := FirstMissing(turns(k).results, |calls|);
        assert EndsAt(a, turns, k, ToolFailed(d));
      }
    }
  }

  lemma {:induction false} FirstMissing(results: nat -> Option<string>, n: nat) returns (d: nat)
    requires exists j :: 0 <= j < n && results(j).None?
    ensures d < n && results(d).None? && forall j :: 0 <= j < d ==> results(j).Some?
  {
    if exists j :: 0 <= j < n - 1 && results(j).None? {
      d := FirstMissing(results, n - 1);
    } else {
      d := n - 1;
    }
  }

  // Texts ---------------------------------------------------------------------------------------------

  /** A text without tool call makes none; what is said back is the scratchpad's answer, a correction, or the nudge. */
  lemma TextsAreAnswered(a: Agent, base: seq<Message>, turns: Turns, k: nat, r: Response, c: Account, c': Account)
    requires a.spec.checkpointEvery > 0 && AccountAt(a, base, turns, k, c) && AccountAt(a, base, turns, k + 1, c')
    requires turns(k).response == Some(r) && AsksFor(a, r, [])
    ensures c'.used == c.used && c'.toolCalls == c.toolCalls
    ensures |c'.messages| == |c.messages| + 2 && c.messages <= c'.messages && c'.messages[|c.messages|] == Assistant(r.content)
    ensures var reply := c'.messages[|c.messages| + 1];
            if a.reader.scratchpad(r.content).Some? then turns(k).scratchpad.Some? && reply == User(turns(k).scratchpad.value)
            else match a.reader.validate(r.content)
                 case Err(error) => reply == User(a.reader.correction(error))
                 case Ok(output) => reply == User(a.reader.nudge) && a.reader.promises(output)
                                    && (RequiresCount(a.input) || RequiresList(a.input))
  {
    AsksForItsCalls(a, turns, k, r, []);
    assert GoesOn(a, turns, k);
  }

  /** A run finishes with a valid text, unless the text promises the mailbox tool call that has been made already. */
  lemma ValidTextFinishes(a: Agent, turns: Turns, k: nat, r: Response, output: string)
    requires Answered(a, turns, k, r)
    ensures EndsAt(a, turns, k, Finished(output)) <==>
      && AsksFor(a, r, []) && a.reader.scratchpad(r.content).None? && a.reader.validate(r.content) == Ok(output)
      && !((RequiresCount(a.input) || RequiresList(a.input)) && a.reader.promises(output)) && turns(k).finishes
  {
    if AsksFor(a, r, []) { AsksForItsCalls(a, turns, k, r, []); }
  }

  // Limits and checkpoints ------------------------------------------------------------------------------

  /** A run that reaches a limit ends there, the limit on steps first. */
  lemma LimitsEnd(a: Agent, turns: Turns, k: nat)
    requires AllGoOn(a, turns, k) && k <= a.spec.maxIterations && k <= a.spec.maxLlmCalls
    ensures EndsAt(a, turns, k, IterationsUsedUp) <==> k == a.spec.maxIterations
    ensures EndsAt(a, turns, k, LlmBudget) <==> k == a.spec.maxLlmCalls < a.spec.maxIterations
  {
  }

  /** A checkpoint named for step i is there at the head of step k exactly when i was a tool or scratchpad step on which one was due. */
  lemma {:induction false} CheckpointIff(a: Agent, base: seq<Message>, turns: Turns, k: nat, i: nat, r: Response)
    requires a.spec.checkpointEvery > 0 && turns(i).response == Some(r)
    ensures (exists c :: c in Checkpoints(a, base, turns, k) && c.step == i) <==>
      && i < k && (!AsksFor(a, r, []) || a.reader.scratchpad(r.content).Some?)
      && (i + 1) % a.spec.checkpointEvery == 0 && turns(i).saves
  {
    if AsksFor(a, r, []) { AsksForItsCalls(a, turns, i, r, []); }
    if k > 0 {
      CheckpointIff(a, base, turns, k - 1, i, r);
      if SavesAt(a, turns, k - 1) {
        OneMoreSaved(Checkpoints(a, base, turns, k - 1), Checkpoint(k - 1, Transcript(a, base, turns, k)), i);
      }
    }
  }

  lemma OneMoreSaved(before: seq<Checkpoint>, saved: Checkpoint, i: nat)
    ensures (exists c :: c in before + [saved] && c.step == i) <==> saved.step == i || exists c :: c in before && c.step == i
  {
    assert saved in before + [saved] && forall c :: c in before ==> c in before + [saved];
  }
}
