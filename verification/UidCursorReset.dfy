/** What a reset in progress does to the other runs, exactly, and what becomes of mail that was passed over. */
module UidCursorReset {
  import opened Common
  import opened UidCursor
  import opened UidCursorProtocol
  import opened UidCursorEpoch

  // Mail passed over stays unread -----------------------------------------------------------------

  /** The batch holds only messages above u. */
  predicate Above(us: set<nat>, u: nat) { forall w :: w in us ==> w > u }

  predicate GotBehind(got: Fetched, u: nat) { got.start > u && got.uidEnd >= 1 && Above(got.batch.Keys, u) }

  /** The run works behind UID u. */
  predicate WorksBehind(run: Run, u: nat) {
    match run
    case FullReady(start) => start > u
    case FullFetched(got) => GotBehind(got, u)
    case FullChecked(got) => GotBehind(got, u)
    case FullRecorded(got) => GotBehind(got, u)
    case FullUpserted(got) => GotBehind(got, u)
    case IncReady(since) => since >= u
    case IncListed(_, uids, todo, batch, _) => uids != {} && Above(uids, u) && batch.Keys <= uids && todo <= uids
    case IncChecked(_, uids, batch, _) => uids != {} && Above(uids, u) && batch.Keys <= uids
    case IncUpserted(_, uids, batch, _) => uids != {} && Above(uids, u) && batch.Keys <= uids
    case Resetting(_, _) => false
  }

  predicate NoKey(f: Folder, validity: nat, u: nat) { forall k :: k in f.queued ==> !(k.uid == u && k.validity == validity) }

  /** The cursor and every run are behind u, and u is not in the body queue. */
  predicate PassedOver(s: Sys, u: nat) {
    && EpochInv(s)
    && 1 <= u < s.mailbox.uidNext
    && s.folder.cursor.Some? && s.folder.cursor.value >= u
    && NoKey(s.folder, s.mailbox.validity, u)
    && forall r :: r in s.runs ==> WorksBehind(s.runs[r], u)
  }

  lemma WritesBehind(s: Sys, r: nat, u: nat)
    requires PassedOver(s, u) && Enabled(s, Advance(r))
    ensures var s' := AdvanceRun(s, r);
            && s'.folder.cursor.Some? && s'.folder.cursor.value >= u
            && NoKey(s'.folder, s.mailbox.validity, u)
  {
    assert WorksBehind(s.runs[r], u) && KnowsEpoch(s, s.runs[r]);
    NoResetStarts(s, Advance(r));
  }

  lemma AdvancesBehind(s: Sys, r: nat, u: nat)
    requires PassedOver(s, u) && Enabled(s, Advance(r)) && r in AdvanceRun(s, r).runs
    ensures WorksBehind(AdvanceRun(s, r).runs[r], u)
  {
    assert WorksBehind(s.runs[r], u) && KnowsEpoch(s, s.runs[r]);
    NoResetStarts(s, Advance(r));
    if s.runs[r].FullReady? { assert forall w :: w in FetchRange(s.mailbox, s.runs[r].start) ==> w > u; }
  }

  lemma AdvanceTouchesOne(s: Sys, r: nat)
    requires r in s.runs && ValidMailbox(s.mailbox)
    ensures var s' := AdvanceRun(s, r);
            s'.mailbox == s.mailbox && forall q :: q in s'.runs && q != r ==> q in s.runs && s'.runs[q] == s.runs[q]
  {
  }

  lemma StaysPassedOver(s: Sys, step: Step, u: nat)
    requires PassedOver(s, u) && Enabled(s, step) && !step.Renumber? && ValidMailbox(Next(s, step).mailbox)
    ensures PassedOver(Next(s, step), u)
  {
    var s' := Next(s, step);
    if step.Advance? {
      AdvanceKeepsEpoch(s, step.r);
      AdvanceTouchesOne(s, step.r);
      WritesBehind(s, step.r, u);
      forall q | q in s'.runs ensures WorksBehind(s'.runs[q], u) {
        if q == step.r { AdvancesBehind(s, q, u); } else { assert WorksBehind(s.runs[q], u); }
      }
    } else {
      OtherKeepsEpoch(s, step);
      OthersWorkBehind(s, step, u);
    }
  }

  lemma OthersWorkBehind(s: Sys, step: Step, u: nat)
    requires PassedOver(s, u) && Enabled(s, step) && !step.Renumber? && !step.Advance?
    ensures forall q :: q in Next(s, step).runs ==> WorksBehind(Next(s, step).runs[q], u)
  {
    forall q | q in Next(s, step).runs ensures WorksBehind(Next(s, step).runs[q], u) {
      if q in s.runs { assert WorksBehind(s.runs[q], u); }
    }
  }

  /** Until the next renumbering a message passed over is never imported, whatever runs follow. */
  lemma {:induction false} PassedOverIsNeverImported(s: Sys, steps: seq<Step>, u: nat)
    requires PassedOver(s, u) && Legal(s, steps) && OneEpoch(steps)
    ensures var s' := Exec(s, steps);
            u in s'.mailbox.msgs ==> !Imported(s'.folder, s'.mailbox.validity, u, s'.mailbox.msgs[u])
    decreases |steps|
  {
    if steps != [] {
      StaysPassedOver(s, steps[0], u);
      PassedOverIsNeverImported(Next(s, steps[0]), steps[1..], u);
    }
  }

  // The exact condition at a reset ------------------------------------------------------------------

  /** The run has fetched in the current epoch, and has a range to work on. */
  predicate FetchedLately(s: Sys, run: Run) {
    && run.FullFetched? && run.got.validity == s.mailbox.validity
    && InRange(run.got) && Snapshot(s.mailbox, run.got) && run.got.start <= run.got.uidEnd
  }

  /**
   * Run q has stored the new UIDVALIDITY and is about to reset; the other runs are about to read, or have
   * just fetched in the new epoch.
   */
  predicate AtReset(s: Sys, q: nat) {
    && ValidMailbox(s.mailbox) && Current(s)
    && q in s.runs && s.runs[q].Resetting? && s.runs[q].validity == s.mailbox.validity
    && forall r :: r in s.runs && r != q ==>
        s.runs[r].IncReady? || (s.runs[r].FullReady? && s.runs[r].start >= 1) || FetchedLately(s, s.runs[r])
  }

  /** Body-queue rows have their email rows, as they are written in one transaction. */
  predicate Consistent(f: Folder) { forall k :: k in f.queued ==> k.messageId in f.emails }

  /** n is a UID that was assigned, and everything importable up to it is imported. */
  predicate SafeAt(s: Sys, n: nat) { n < s.mailbox.uidNext && Covered(s.folder, s.mailbox, n) }

  /** Up to where the run takes everything for imported. */
  function Floor(run: Run): nat {
    match run
    case FullReady(start) => if start == 0 then 0 else start - 1
    case FullFetched(got) => if got.start == 0 then 0 else got.start - 1
    case IncReady(since) => since
    case _ => 0
  }

  /** The old cursor, and what the other runs have read of it, are safe in the new epoch. */
  predicate AllSafe(s: Sys, q: nat) {
    && (s.folder.cursor.Some? ==> SafeAt(s, s.folder.cursor.value))
    && forall r :: r in s.runs && r != q ==> SafeAt(s, Floor(s.runs[r]))
  }

  predicate CursorCovered(s: Sys) {
    !ResetPending(s) && s.folder.cursor.Some? ==> Covered(s.folder, s.mailbox, s.folder.cursor.value)
  }

  /** However the epoch goes on, whenever no reset is pending the cursor has not overtaken the data. */
  ghost predicate StaysCovered(s: Sys)
    requires ValidMailbox(s.mailbox)
  {
    forall steps :: Legal(s, steps) && OneEpoch(steps) ==> CursorCovered(Exec(s, steps))
  }

  /** UIDs are not used up. */
  predicate Room(s: Sys) {
    && s.mailbox.uidNext < UID_LIMIT - 1
    && (s.folder.cursor.Some? ==> s.folder.cursor.value < UID_LIMIT - 2)
    && forall r :: r in s.runs ==> Floor(s.runs[r]) < UID_LIMIT - 2
  }

  // It is enough ------------------------------------------------------------------------------------

  function Unresetting(runs: map<nat, Run>): map<nat, Run> { map r | r in runs && !runs[r].Resetting? :: runs[r] }

  /** The system without the runs that reset. */
  function Rest(s: Sys): Sys { s.(runs := Unresetting(s.runs), fullOnly := false) }

  predicate Good(s: Sys) {
    && Inv(Rest(s)) && EpochInv(Rest(s)) && Current(s)
    && forall r :: r in s.runs && s.runs[r].Resetting? ==> s.runs[r].validity == s.mailbox.validity
  }

  lemma NobodyResets(s: Sys)
    ensures !ResetPending(Rest(s))
  {
  }

  lemma SafeIsGood(s: Sys, q: nat)
    requires AtReset(s, q) && AllSafe(s, q)
    ensures Good(s)
  {
    var t := Rest(s);
    NobodyResets(s);
    forall r | r in t.runs ensures RunInv(t, t.runs[r]) && KnowsEpoch(t, t.runs[r]) {
      assert r != q && SafeAt(s, Floor(s.runs[r]));
    }
  }

  lemma GoodIsCovered(s: Sys)
    requires Good(s)
    ensures CursorCovered(s)
  {
    NobodyResets(s);
  }

  /** A cursor gone, and a run added that begins at the beginning, harm nobody. */
  lemma ResetHarmsNobody(t: Sys, t': Sys, r: nat)
    requires Inv(t) && EpochInv(t) && Current(t) && !ResetPending(t) && !t.fullOnly
    requires t' == t.(folder := t.folder.(cursor := None), runs := t'.runs)
    requires t'.runs == t.runs || (r !in t.runs && t'.runs == t.runs[r := FullReady(1)])
    ensures Inv(t') && EpochInv(t')
  {
    forall p | p in t'.runs ensures RunInv(t', t'.runs[p]) && KnowsEpoch(t', t'.runs[p]) {
      if p in t.runs {
        assert RunInv(t, t.runs[p]) && KnowsEpoch(t, t.runs[p]);
        SameRows(t, t', t.runs[p]);
      }
    }
    assert forall p :: p in t'.runs ==> !t'.runs[p].Resetting?;
  }

  lemma SameRows(t: Sys, t': Sys, run: Run)
    requires RunInv(t, run) && KnowsEpoch(t, run)
    requires t'.mailbox == t.mailbox && t'.fullOnly == t.fullOnly && t'.folder == t.folder.(cursor := t'.folder.cursor)
    ensures RunInv(t', run) && KnowsEpoch(t', run)
  {
  }

  /** The statement of a run that resets, or its crash. */
  lemma ResetterStep(s: Sys, step: Step)
    requires Good(s) && Enabled(s, step) && (step.Advance? || step.Crash?) && s.runs[step.r].Resetting?
    ensures Good(Next(s, step))
  {
    var s' := Next(s, step);
    var t, t' := Rest(s), Rest(s');
    NobodyResets(s);
    if step.Crash? {
      assert t'.runs == t.runs;
      assert t' == t;
    } else {
      if s.runs[step.r].full {
        assert t'.runs == t.runs[step.r := FullReady(1)];
      } else {
        assert t'.runs == t.runs;
      }
      ResetHarmsNobody(t, t', step.r);
    }
  }

  /** Any other step is a step of the system without the runs that reset. */
  lemma OtherStep(s: Sys, step: Step)
    requires Good(s) && Enabled(s, step) && !step.Renumber?
    requires (step.Advance? || step.Crash?) ==> !s.runs[step.r].Resetting?
    ensures Enabled(Rest(s), step) && Rest(Next(s, step)) == Next(Rest(s), step)
    ensures forall r :: r in Next(s, step).runs && Next(s, step).runs[r].Resetting? ==> r in s.runs && Next(s, step).runs[r] == s.runs[r]
  {
    var s', t := Next(s, step), Rest(s);
    if step.Advance? {
      NoResetStarts(t, step);
      AdvanceIsLocal(s, step.r);
    } else {
      RestOfOther(s, step);
    }
  }

  lemma RestOfOther(s: Sys, step: Step)
    requires Good(s) && Enabled(s, step) && !step.Renumber? && !step.Advance?
    requires step.Crash? ==> !s.runs[step.r].Resetting?
    ensures Enabled(Rest(s), step) && Rest(Next(s, step)) == Next(Rest(s), step)
    ensures forall r :: r in Next(s, step).runs && Next(s, step).runs[r].Resetting? ==> r in s.runs && Next(s, step).runs[r] == s.runs[r]
  {
    assert Unresetting(Next(s, step).runs) == Next(Rest(s), step).runs;
  }

  lemma AdvanceIsLocal(s: Sys, r: nat)
    requires r in s.runs && !s.runs[r].Resetting? && ValidMailbox(s.mailbox) && Enabled(s, Advance(r))
    requires !StartsReset(Rest(s), Advance(r))
    ensures Rest(AdvanceRun(s, r)) == AdvanceRun(Rest(s), r)
    ensures forall p :: p in AdvanceRun(s, r).runs && AdvanceRun(s, r).runs[p].Resetting? ==> p in s.runs && AdvanceRun(s, r).runs[p] == s.runs[p]
  {
    var t := Rest(s);
    AdvanceTouchesOne(s, r);
    AdvanceTouchesOne(t, r);
    SameAdvance(s, t, r);
    NoNewReset(t, r);
    var a, b := AdvanceRun(s, r), AdvanceRun(t, r);
    forall p ensures p in Rest(a).runs <==> p in b.runs {
      if p != r { AdvanceKeepsOthers(s, r, p); AdvanceKeepsOthers(t, r, p); }
    }
    assert Rest(a).runs == b.runs;
  }

  /** A statement depends on the rows, the mailbox and the run itself. */
  lemma SameAdvance(s: Sys, t: Sys, r: nat)
    requires r in s.runs && r in t.runs && s.runs[r] == t.runs[r] && ValidMailbox(s.mailbox)
    requires t.mailbox == s.mailbox && t.folder == s.folder
    ensures var a, b := AdvanceRun(s, r), AdvanceRun(t, r);
            && a.folder == b.folder && (r in a.runs <==> r in b.runs) && (r in a.runs ==> a.runs[r] == b.runs[r])
  {
  }

  lemma NoNewReset(t: Sys, r: nat)
    requires r in t.runs && !t.runs[r].Resetting? && ValidMailbox(t.mailbox) && Enabled(t, Advance(r))
    requires !StartsReset(t, Advance(r))
    ensures r in AdvanceRun(t, r).runs ==> !AdvanceRun(t, r).runs[r].Resetting?
  {
  }

  lemma AdvanceKeepsOthers(s: Sys, r: nat, p: nat)
    requires r in s.runs && ValidMailbox(s.mailbox) && p != r
    ensures p in AdvanceRun(s, r).runs <==> p in s.runs
  {
  }

  lemma EpochStepKeepsInv(t: Sys, step: Step)
    requires Inv(t) && EpochInv(t) && Current(t) && Enabled(t, step) && !step.Renumber?
    ensures Inv(Next(t, step)) && EpochInv(Next(t, step)) && Current(Next(t, step))
  {
    NoResetStarts(t, step);
    StepKeepsInv(t, step);
    if step.Advance? {
      AdvanceKeepsEpoch(t, step.r);
      AdvanceKeepsStored(t, step.r);
    } else {
      OtherKeepsEpoch(t, step);
      OtherKeepsStored(t, step);
    }
  }

  lemma AdvanceKeepsStored(t: Sys, r: nat)
    requires r in t.runs && ValidMailbox(t.mailbox) && t.folder.validity.Some?
    ensures AdvanceRun(t, r).folder.validity.Some?
  {
  }

  lemma OtherKeepsStored(t: Sys, step: Step)
    requires Enabled(t, step) && ValidMailbox(t.mailbox) && !step.Advance?
    ensures Next(t, step).folder == t.folder
  {
  }

  lemma StepKeepsGood(s: Sys, step: Step)
    requires Good(s) && Enabled(s, step) && !step.Renumber?
    ensures Good(Next(s, step))
  {
    if (step.Advance? || step.Crash?) && s.runs[step.r].Resetting? {
      ResetterStep(s, step);
    } else {
      OtherStep(s, step);
      EpochStepKeepsInv(Rest(s), step);
      assert Current(Rest(Next(s, step)));
      SameMailboxEpoch(s, step);
    }
  }

  lemma SameMailboxEpoch(s: Sys, step: Step)
    requires Enabled(s, step) && !step.Renumber? && ValidMailbox(s.mailbox)
    ensures Next(s, step).mailbox.validity == s.mailbox.validity
  {
    if step.Advance? { AdvanceTouchesOne(s, step.r); }
  }

  lemma {:induction false} RunKeepsGood(s: Sys, steps: seq<Step>)
    requires Good(s) && Legal(s, steps) && OneEpoch(steps)
    ensures Good(Exec(s, steps))
    decreases |steps|
  {
    if steps != [] {
      StepKeepsGood(s, steps[0]);
      RunKeepsGood(Next(s, steps[0]), steps[1..]);
    }
  }

  // It is needed ------------------------------------------------------------------------------------

  /** t is reached from s within the epoch. */
  ghost predicate Reaches(s: Sys, t: Sys)
    requires ValidMailbox(s.mailbox)
  {
    exists steps :: Legal(s, steps) && OneEpoch(steps) && Exec(s, steps) == t
  }

  lemma ReachesSelf(s: Sys)
    requires ValidMailbox(s.mailbox)
    ensures Reaches(s, s)
  {
    assert Legal(s, []) && OneEpoch([]) && Exec(s, []) == s;
  }

  lemma {:induction false} OneMoreStep(s: Sys, steps: seq<Step>, step: Step)
    requires ValidMailbox(s.mailbox) && Legal(s, steps)
    requires ValidMailbox(Exec(s, steps).mailbox) && Enabled(Exec(s, steps), step)
    requires ValidMailbox(Next(Exec(s, steps), step).mailbox)
    ensures Legal(s, steps + [step]) && Exec(s, steps + [step]) == Next(Exec(s, steps), step)
    decreases |steps|
  {
    var all := steps + [step];
    if steps == [] {
      var t := Next(s, step);
      assert all == [step] && all[1..] == [] && Legal(t, []) && Exec(t, []) == t;
    } else {
      assert all[1..] == steps[1..] + [step];
      OneMoreStep(Next(s, steps[0]), steps[1..], step);
    }
  }

  lemma ReachesOn(s: Sys, t: Sys, step: Step)
    requires ValidMailbox(s.mailbox) && Reaches(s, t) && ValidMailbox(t.mailbox)
    requires Enabled(t, step) && !step.Renumber? && ValidMailbox(Next(t, step).mailbox)
    ensures Reaches(s, Next(t, step))
  {
    var steps :| Legal(s, steps) && OneEpoch(steps) && Exec(s, steps) == t;
    OneMoreStep(s, steps, step);
    assert OneEpoch(steps + [step]);
  }

  /** A message below the bound that no run has queued, and one above it. */
  predicate Bait(s: Sys, u: nat, n: nat) {
    && ValidMailbox(s.mailbox) && Current(s)
    && u in s.mailbox.msgs && u <= n && Usable(s.mailbox.msgs[u])
    && QueueKey(u, s.mailbox.validity, s.mailbox.msgs[u].value) !in s.folder.queued
    && exists w :: w in s.mailbox.msgs && w > n && Usable(s.mailbox.msgs[w])
  }

  lemma BaitIsUncovered(s: Sys, u: nat, n: nat)
    requires Bait(s, u, n) && s.folder.cursor.Some? && s.folder.cursor.value >= n && !ResetPending(s)
    ensures !CursorCovered(s)
  {
  }

  /** Message-IDs do not run out. */
  lemma {:induction false} LongerThanAll(ids: set<string>) returns (n: nat)
    ensures forall m :: m in ids ==> |m| < n
  {
    n := 0;
    if ids != {} {
      var m :| m in ids;
      n := LongerThanAll(ids - {m});
      if |m| >= n { n := |m| + 1; }
      assert forall x :: x in ids ==> x == m || x in ids - {m};
    }
  }

  lemma NewMessageId(ids: set<string>) returns (m: string)
    ensures m !in ids && Usable(Some(m))
  {
    var n := LongerThanAll(ids);
    m := seq(n + 1, _ => 'x');
    assert m[0] == 'x' && 'x' in m && !IsWhitespace('x');
  }

  /** A bound that is not safe can be baited by mail arriving. */
  lemma Prepare(s0: Sys, s: Sys, n: nat) returns (t: Sys, u: nat)
    requires ValidMailbox(s0.mailbox) && Reaches(s0, s) && ValidMailbox(s.mailbox) && Current(s) && Consistent(s.folder)
    requires !SafeAt(s, n) && s.mailbox.uidNext < UID_LIMIT - 1 && n < UID_LIMIT - 2
    ensures Reaches(s0, t) && Bait(t, u, n) && t.folder == s.folder && t.runs == s.runs
  {
    var m := s.mailbox;
    assert Usable(Some("x")) by { assert "x"[0] == 'x' && 'x' in "x"; }
    if n < m.uidNext {
      u :| u in m.msgs && u <= n && Usable(m.msgs[u]) && !Imported(s.folder, m.validity, u, m.msgs[u]);
      var step := Deliver(m.uidNext, Some("x"));
      t := Next(s, step);
      ReachesOn(s0, s, step);
      assert m.uidNext in t.mailbox.msgs && m.uidNext > n && u in t.mailbox.msgs && t.mailbox.msgs[u] == m.msgs[u];
    } else {
      var id := NewMessageId(s.folder.emails);
      u := m.uidNext;
      var step, step' := Deliver(u, Some(id)), Deliver(n + 1, Some("x"));
      var s1 := Next(s, step);
      ReachesOn(s0, s, step);
      t := Next(s1, step');
      ReachesOn(s0, s1, step');
      assert n + 1 in t.mailbox.msgs && u in t.mailbox.msgs && t.mailbox.msgs[u] == Some(id);
    }
  }

  // A run that works behind an unsafe bound writes the cursor past the bait ---------------------------

  /** What keeps the bait: the mailbox, the rows' validity, and no queue row for it. */
  lemma BaitStays(s: Sys, t: Sys, u: nat, n: nat, batch: map<nat, Mid>)
    requires Bait(s, u, n) && t.mailbox == s.mailbox && t.folder.validity == s.folder.validity
    requires Above(batch.Keys, n) && t.folder.queued <= s.folder.queued + KeysFor(batch, s.mailbox.validity)
    ensures Bait(t, u, n)
  {
    assert forall k :: k in KeysFor(batch, s.mailbox.validity) ==> k.uid > n;
  }

  /** Run r is at this point, and the bait is laid. */
  predicate Baited(s: Sys, r: nat, run: Run, u: nat, n: nat) {
    Bait(s, u, n) && r in s.runs && s.runs[r] == run && forall q :: q in s.runs && q != r ==> !s.runs[q].Resetting?
  }

  /** The cursor has been written past the bait and nobody resets. */
  predicate Overtaken(s: Sys, u: nat, n: nat) {
    Bait(s, u, n) && s.folder.cursor.Some? && s.folder.cursor.value >= n && !ResetPending(s)
  }

  lemma AdvanceBaited(s0: Sys, s: Sys, r: nat, run: Run, u: nat, n: nat, next: Run)
    requires ValidMailbox(s0.mailbox) && Reaches(s0, s) && Baited(s, r, run, u, n) && Enabled(s, Advance(r))
    requires AdvanceRun(s, r) == Continue(s, r, AdvanceRun(s, r).folder, next)
    requires AdvanceRun(s, r).folder.validity == s.folder.validity
    requires AdvanceRun(s, r).folder.queued <= s.folder.queued + KeysFor(Batch(run), s.mailbox.validity) && Above(Batch(run).Keys, n)
    ensures Reaches(s0, AdvanceRun(s, r)) && Baited(AdvanceRun(s, r), r, next, u, n)
  {
    ReachesOn(s0, s, Advance(r));
    BaitStays(s, AdvanceRun(s, r), u, n, Batch(run));
  }

  lemma WriteBaited(s0: Sys, s: Sys, r: nat, run: Run, u: nat, n: nat)
    requires ValidMailbox(s0.mailbox) && Reaches(s0, s) && Baited(s, r, run, u, n) && Enabled(s, Advance(r))
    requires AdvanceRun(s, r).folder == s.folder.(cursor := AdvanceRun(s, r).folder.cursor)
    requires AdvanceRun(s, r).folder.cursor.Some? && AdvanceRun(s, r).folder.cursor.value >= n
    requires r in AdvanceRun(s, r).runs ==> !AdvanceRun(s, r).runs[r].Resetting?
    ensures Reaches(s0, AdvanceRun(s, r)) && Overtaken(AdvanceRun(s, r), u, n)
  {
    var t := AdvanceRun(s, r);
    ReachesOn(s0, s, Advance(r));
    AdvanceTouchesOne(s, r);
    BaitStays(s, t, u, n, map[]);
    assert forall q :: q in t.runs ==> !t.runs[q].Resetting?;
  }

  lemma FullRunOvertakes(s0: Sys, s: Sys, r: nat, start: nat, u: nat) returns (t: Sys)
    requires ValidMailbox(s0.mailbox) && Reaches(s0, s) && start >= 1 && Baited(s, r, FullReady(start), u, start - 1)
    ensures Reaches(s0, t) && Overtaken(t, u, start - 1)
  {
    var n, m := start - 1, s.mailbox;
    var got := Fetched(start, m.validity, Highest(m), FetchRange(m, start));
    assert Above(got.batch.Keys, n);
    AdvanceBaited(s0, s, r, FullReady(start), u, n, FullFetched(got));
    t := FetchedOvertakes(s0, AdvanceRun(s, r), r, got, u, n);
  }

  lemma FetchedOvertakes(s0: Sys, s: Sys, r: nat, got: Fetched, u: nat, n: nat) returns (t: Sys)
    requires ValidMailbox(s0.mailbox) && Reaches(s0, s) && Baited(s, r, FullFetched(got), u, n)
    requires got.validity == s.mailbox.validity && n < got.start <= got.uidEnd < UID_LIMIT && Above(got.batch.Keys, n)
    ensures Reaches(s0, t) && Overtaken(t, u, n)
  {
    AdvanceBaited(s0, s, r, FullFetched(got), u, n, FullChecked(got));
    var s1 := AdvanceRun(s, r);
    if got.batch == map[] {
      WriteBaited(s0, s1, r, FullChecked(got), u, n);
      t := AdvanceRun(s1, r);
    } else {
      AdvanceBaited(s0, s1, r, FullChecked(got), u, n, FullRecorded(got));
      t := RecordedOvertakes(s0, AdvanceRun(s1, r), r, got, u, n);
    }
  }

  lemma RecordedOvertakes(s0: Sys, s: Sys, r: nat, got: Fetched, u: nat, n: nat) returns (t: Sys)
    requires ValidMailbox(s0.mailbox) && Reaches(s0, s) && Baited(s, r, FullRecorded(got), u, n)
    requires got.batch != map[] && Above(got.batch.Keys, n) && got.validity == s.mailbox.validity
    ensures Reaches(s0, t) && Overtaken(t, u, n)
  {
    if UsableOf(got.batch) == {} {
      WriteBaited(s0, s, r, FullRecorded(got), u, n);
      t := AdvanceRun(s, r);
    } else {
      AdvanceBaited(s0, s, r, FullRecorded(got), u, n, FullUpserted(got));
      var s1 := AdvanceRun(s, r);
      assert Top(UsableOf(got.batch)) in got.batch;
      WriteBaited(s0, s1, r, FullUpserted(got), u, n);
      t := AdvanceRun(s1, r);
    }
  }

  lemma IncRunOvertakes(s0: Sys, s: Sys, r: nat, since: nat, u: nat) returns (t: Sys)
    requires ValidMailbox(s0.mailbox) && Reaches(s0, s) && Baited(s, r, IncReady(since), u, since)
    ensures Reaches(s0, t) && Overtaken(t, u, since)
  {
    var m := s.mailbox;
    NewUidsExact(m, since, true);
    var uids := NewUids(m, since, true);
    var w :| w in m.msgs && w > since && Usable(m.msgs[w]);
    assert w in uids;
    AdvanceBaited(s0, s, r, IncReady(since), u, since, IncListed(since, uids, uids, map[], 0));
    var s1 := AdvanceRun(s, r);
    var batch := map[] + FetchUids(m, uids);
    ReachesOn(s0, s1, FetchChunk(r, uids));
    var s2 := Next(s1, FetchChunk(r, uids));
    assert uids - uids == {} && w in UsableOf(batch) && Above(batch.Keys, since);
    BaitStays(s1, s2, u, since, map[]);
    t := ListedOvertakes(s0, s2, r, since, uids, batch, u);
  }

  lemma ListedOvertakes(s0: Sys, s: Sys, r: nat, since: nat, uids: set<nat>, batch: map<nat, Mid>, u: nat) returns (t: Sys)
    requires ValidMailbox(s0.mailbox) && Reaches(s0, s)
    requires Baited(s, r, IncListed(since, uids, {}, batch, s.mailbox.validity), u, since)
    requires uids != {} && Above(uids, since) && UsableOf(batch) != {} && Above(batch.Keys, since)
    ensures Reaches(s0, t) && Overtaken(t, u, since)
  {
    var v := s.mailbox.validity;
    AdvanceBaited(s0, s, r, IncListed(since, uids, {}, batch, v), u, since, IncChecked(since, uids, batch, v));
    var s1 := AdvanceRun(s, r);
    AdvanceBaited(s0, s1, r, IncChecked(since, uids, batch, v), u, since, IncUpserted(since, uids, batch, v));
    var s2 := AdvanceRun(s1, r);
    assert Top(uids) in uids;
    WriteBaited(s0, s2, r, IncUpserted(since, uids, batch, v), u, since);
    t := AdvanceRun(s2, r);
  }

  /** The run that resets crashes, mail arrives, and whoever works behind an unsafe bound goes on. */
  lemma UnsafeIsOvertaken(s: Sys, q: nat)
    requires AtReset(s, q) && Room(s) && Consistent(s.folder) && !AllSafe(s, q)
    ensures !StaysCovered(s)
  {
    ReachesSelf(s);
    ReachesOn(s, s, Crash(q));
    var s1 := Next(s, Crash(q));
    if s.folder.cursor.Some? && !SafeAt(s, s.folder.cursor.value) {
      var n := s.folder.cursor.value;
      var t, u := Prepare(s, s1, n);
      BaitIsUncovered(t, u, n);
    } else {
      var r :| r in s.runs && r != q && !SafeAt(s, Floor(s.runs[r]));
      var n := Floor(s.runs[r]);
      var t, u := Prepare(s, s1, n);
      var t';
      if s.runs[r].FullReady? {
        t' := FullRunOvertakes(s, t, r, s.runs[r].start, u);
      } else if s.runs[r].FullFetched? {
        t' := FetchedOvertakes(s, t, r, s.runs[r].got, u, n);
      } else {
        t' := IncRunOvertakes(s, t, r, s.runs[r].since, u);
      }
      BaitIsUncovered(t', u, n);
    }
  }

  /**
   * At a reset, with the other runs about to read or just behind a fetch: the cursor never overtakes
   * the data for the rest of the epoch, in any run with any crashes, if and only if the old cursor, and
   * what each other run has read of it, are safe in the new epoch.
   */
  lemma ResetIsHarmlessIff(s: Sys, q: nat)
    requires AtReset(s, q) && Room(s) && Consistent(s.folder)
    ensures StaysCovered(s) <==> AllSafe(s, q)
  {
    if AllSafe(s, q) {
      SafeIsGood(s, q);
      forall steps | Legal(s, steps) && OneEpoch(steps) ensures CursorCovered(Exec(s, steps)) {
        RunKeepsGood(s, steps);
        GoodIsCovered(Exec(s, steps));
      }
    } else {
      UnsafeIsOvertaken(s, q);
    }
  }

  // Every run keeps the rows consistent ---------------------------------------------------------------

  lemma StepKeepsConsistent(s: Sys, step: Step)
    requires Consistent(s.folder) && ValidMailbox(s.mailbox) && Enabled(s, step)
    ensures Consistent(Next(s, step).folder)
  {
    if step.Advance? { AdvanceKeepsConsistent(s, step.r); }
  }

  lemma UpsertKeepsConsistent(f: Folder, batch: map<nat, Mid>, validity: nat)
    requires Consistent(f)
    ensures Consistent(Upserted(f, batch, validity))
  {
  }

  lemma AdvanceKeepsConsistent(s: Sys, r: nat)
    requires Consistent(s.folder) && ValidMailbox(s.mailbox) && r in s.runs
    ensures Consistent(AdvanceRun(s, r).folder)
  {
    var run := s.runs[r];
    if run.FullRecorded? { UpsertKeepsConsistent(s.folder, run.got.batch, run.got.validity); }
    if run.IncChecked? { UpsertKeepsConsistent(s.folder, run.batch, run.validity); }
  }

  /** What the condition at a reset presupposes of the rows holds in every run. */
  lemma {:induction false} RowsStayConsistent(s: Sys, steps: seq<Step>)
    requires Consistent(s.folder) && ValidMailbox(s.mailbox) && Legal(s, steps)
    ensures Consistent(Exec(s, steps).folder)
    decreases |steps|
  {
    if steps != [] {
      StepKeepsConsistent(s, steps[0]);
      RowsStayConsistent(Next(s, steps[0]), steps[1..]);
    }
  }
}
