/** Runs within one UIDVALIDITY epoch: every interleaving is safe, crashes included. */
module UidCursorEpoch {
  import opened Common
  import opened UidCursor
  import opened UidCursorProtocol

  predicate OneEpoch(steps: seq<Step>) { forall i :: 0 <= i < |steps| ==> !steps[i].Renumber? }

  /** What a run knows of UIDVALIDITY is the mailbox's own; behind its check the value is stored. */
  predicate KnowsEpoch(s: Sys, run: Run) {
    match run
    case FullFetched(got) => got.validity == s.mailbox.validity
    case FullChecked(_) => Current(s)
    case FullRecorded(_) => Current(s)
    case FullUpserted(_) => Current(s)
    case IncReady(_) => Current(s)
    case IncListed(_, _, todo, _, validity) => Current(s) && (todo == {} ==> validity == s.mailbox.validity)
    case IncChecked(_, _, _, _) => Current(s)
    case IncUpserted(_, _, _, _) => Current(s)
    case FullReady(_) => true
    case Resetting(_, _) => false
  }

  predicate EpochInv(s: Sys) {
    && ValidMailbox(s.mailbox)
    && (s.folder.validity.Some? ==> Current(s))
    && (s.folder.cursor.Some? ==> Current(s))
    && forall r :: r in s.runs ==> KnowsEpoch(s, s.runs[r])
  }

  lemma NoResetStarts(s: Sys, step: Step)
    requires EpochInv(s)
    ensures !StartsReset(s, step) && Disciplined(s, step)
  {
    if step.Advance? && step.r in s.runs { assert KnowsEpoch(s, s.runs[step.r]); }
    forall r | r in s.runs ensures !s.runs[r].Resetting? { assert KnowsEpoch(s, s.runs[r]); }
  }

  lemma AdvanceKeepsEpoch(s: Sys, r: nat)
    requires EpochInv(s) && Enabled(s, Advance(r))
    ensures EpochInv(AdvanceRun(s, r))
  {
    NoResetStarts(s, Advance(r));
    assert KnowsEpoch(s, s.runs[r]);
  }

  lemma OtherKeepsEpoch(s: Sys, step: Step)
    requires EpochInv(s) && Enabled(s, step) && !step.Renumber? && !step.Advance?
    ensures EpochInv(Next(s, step))
  {
  }

  lemma {:induction false} OneEpochIsDisciplined(s: Sys, steps: seq<Step>)
    requires EpochInv(s) && Legal(s, steps) && OneEpoch(steps)
    ensures AllDisciplined(s, steps) && EpochInv(Exec(s, steps))
    decreases |steps|
  {
    if steps != [] {
      var step := steps[0];
      NoResetStarts(s, step);
      if step.Advance? { AdvanceKeepsEpoch(s, step.r); } else { OtherKeepsEpoch(s, step); }
      OneEpochIsDisciplined(Next(s, step), steps[1..]);
    }
  }

  /**
   * Within an epoch nothing is asked of the schedule: after any interleaving of full and incremental
   * runs, crashes and mailbox changes, the cursor is below UIDNEXT, every message up to it with a usable
   * Message-ID is imported, and without incremental writes every other one is recorded as missing.
   */
  lemma CursorNeverOvertakesDataInOneEpoch(m: Mailbox, steps: seq<Step>)
    requires ValidMailbox(m) && Legal(Initial(m), steps) && OneEpoch(steps)
    ensures var s := Exec(Initial(m), steps);
            s.folder.cursor.Some?
            ==> && s.folder.cursor.value < s.mailbox.uidNext
                && Covered(s.folder, s.mailbox, s.folder.cursor.value)
                && (s.fullOnly ==> MissingKnown(s.folder, s.mailbox, s.folder.cursor.value))
  {
    OneEpochIsDisciplined(Initial(m), steps);
    var s := Exec(Initial(m), steps);
    forall r | r in s.runs ensures !s.runs[r].Resetting? { assert KnowsEpoch(s, s.runs[r]); }
    CursorNeverOvertakesData(m, steps);
  }
}
