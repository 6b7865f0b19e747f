/** Runs that lose mail: the UIDVALIDITY change is three statements, not one. */
module UidCursorRaces {
  import opened Common
  import opened UidCursor
  import opened UidCursorProtocol
  import opened UidCursorEpoch
  import opened UidCursorReset

  lemma Then(s: Sys, step: Step, s': Sys, rest: seq<Step>)
    requires ValidMailbox(s.mailbox) && Enabled(s, step) && Next(s, step) == s' && ValidMailbox(s'.mailbox) && Legal(s', rest)
    ensures Legal(s, [step] + rest) && Exec(s, [step] + rest) == Exec(s', rest)
  {
    assert ([step] + rest)[1..] == rest;
  }

  /** Two UIDs were used and expunged; after the renumbering UID 1 is a message nobody has read. */
  const OLD := Mailbox(1, 3, map[])
  const NEW := Mailbox(2, 4, map[1 := Some("b")])

  const EMPTY := Folder(None, None, {}, {}, {})

  /** The folder after a full sync of OLD: the empty range was skipped. */
  const SYNCED := Folder(Some(2), Some(1), {}, {}, {})

  lemma FirstSync(rest: seq<Step>)
    requires Legal(Sys(OLD, SYNCED, map[], true), rest)
    ensures var steps := [BeginFull(0)] + ([Advance(0)] + ([Advance(0)] + ([Advance(0)] + rest)));
            Legal(Initial(OLD), steps) && Exec(Initial(OLD), steps) == Exec(Sys(OLD, SYNCED, map[], true), rest)
  {
    var got := Fetched(1, 1, 2, map[]);
    var s1 := Sys(OLD, EMPTY, map[0 := FullReady(1)], true);
    var s2 := Sys(OLD, EMPTY, map[0 := FullFetched(got)], true);
    var s3 := Sys(OLD, EMPTY.(validity := Some(1)), map[0 := FullChecked(got)], true);
    var s4 := Sys(OLD, SYNCED, map[], true);
    assert map[0 := FullChecked(got)] - {0} == map[];
    Then(s3, Advance(0), s4, rest);
    Then(s2, Advance(0), s3, [Advance(0)] + rest);
    Then(s1, Advance(0), s2, [Advance(0)] + ([Advance(0)] + rest));
    Then(Initial(OLD), BeginFull(0), s1, [Advance(0)] + ([Advance(0)] + ([Advance(0)] + rest)));
  }

  /** Run 0 learns of the new UIDVALIDITY and is about to reset the cursor. */
  lemma FindsRenumbering(s: Sys, rest: seq<Step>)
    requires s.mailbox == NEW && s.folder == SYNCED && 0 !in s.runs
    requires Legal(s.(folder := SYNCED.(validity := Some(2)), runs := s.runs[0 := Resetting(2, true)]), rest)
    ensures var steps := [BeginFull(0)] + ([Advance(0)] + ([Advance(0)] + rest));
            Legal(s, steps) && Exec(s, steps)
                == Exec(s.(folder := SYNCED.(validity := Some(2)), runs := s.runs[0 := Resetting(2, true)]), rest)
  {
    var got := Fetched(3, 2, 3, map[]);
    var s1 := s.(runs := s.runs[0 := FullReady(3)]);
    assert FetchRange(NEW, 3) == map[];
    var s2 := s.(runs := s.runs[0 := FullFetched(got)]);
    var s3 := s.(folder := SYNCED.(validity := Some(2)), runs := s.runs[0 := Resetting(2, true)]);
    Then(s2, Advance(0), s3, rest);
    Then(s1, Advance(0), s2, [Advance(0)] + rest);
    Then(s, BeginFull(0), s1, [Advance(0)] + ([Advance(0)] + rest));
  }

  /** Nobody is at work, the stored UIDVALIDITY is right, and UID 1 lies below the cursor unread. */
  predicate LostMail(s: Sys) {
    && s.runs == map[] && Current(s)
    && 1 in s.mailbox.msgs && Usable(s.mailbox.msgs[1])
    && PassedOver(s, 1)
  }

  /** It is lost for good: until the next renumbering no run imports it. */
  lemma LostMailIsNeverRead(s: Sys, steps: seq<Step>)
    requires LostMail(s) && Legal(s, steps) && OneEpoch(steps)
    ensures var s' := Exec(s, steps);
            1 in s'.mailbox.msgs ==> !Imported(s'.folder, s'.mailbox.validity, 1, s'.mailbox.msgs[1])
  {
    PassedOverIsNeverImported(s, steps, 1);
  }

  /** A crash between storing the new UIDVALIDITY and resetting the cursor loses mail. */
  lemma CrashDuringResetLosesMail() returns (steps: seq<Step>)
    ensures ValidMailbox(OLD) && Legal(Initial(OLD), steps) && LostMail(Exec(Initial(OLD), steps))
  {
    assert 'b' in "b";
    var s4 := Sys(OLD, SYNCED, map[], true);
    var s5 := Sys(NEW, SYNCED, map[], true);
    var s6 := Sys(NEW, SYNCED.(validity := Some(2)), map[0 := Resetting(2, true)], true);
    var s7 := Sys(NEW, SYNCED.(validity := Some(2)), map[], true);
    assert map[0 := Resetting(2, true)] - {0} == map[];
    Then(s6, Crash(0), s7, []);
    var rest := [Crash(0)] + [];
    FindsRenumbering(s5, rest);
    rest := [BeginFull(0)] + ([Advance(0)] + ([Advance(0)] + rest));
    Then(s4, Renumber(NEW), s5, rest);
    rest := [Renumber(NEW)] + rest;
    FirstSync(rest);
    steps := [BeginFull(0)] + ([Advance(0)] + ([Advance(0)] + ([Advance(0)] + rest)));
    assert LostMail(s7);
  }

  const STORED := SYNCED.(validity := Some(2))
  const RESET := STORED.(cursor := None)

  /** A run that began in the old epoch at UID 3 skips its empty range in the new one. */
  lemma StaleRunWrites()
    ensures var s := Sys(NEW, RESET, map[1 := FullReady(3)], true);
            var steps := [Advance(1)] + ([Advance(1)] + [Advance(1)]);
            Legal(s, steps) && Exec(s, steps) == Sys(NEW, RESET.(cursor := Some(3)), map[], true)
  {
    var got := Fetched(3, 2, 3, map[]);
    assert FetchRange(NEW, 3) == map[];
    var s9 := Sys(NEW, RESET, map[1 := FullReady(3)], true);
    var s10 := Sys(NEW, RESET, map[1 := FullFetched(got)], true);
    var s11 := Sys(NEW, RESET, map[1 := FullChecked(got)], true);
    var s12 := Sys(NEW, RESET.(cursor := Some(3)), map[], true);
    assert map[1 := FullChecked(got)] - {1} == map[];
    assert [Advance(1)] == [Advance(1)] + [];
    Then(s11, Advance(1), s12, []);
    Then(s10, Advance(1), s11, [Advance(1)]);
    Then(s9, Advance(1), s10, [Advance(1)] + [Advance(1)]);
  }

  /** Run 0 resets the cursor while run 1 is in flight. */
  lemma ResetBesideRun(rest: seq<Step>)
    requires Legal(Sys(NEW, RESET, map[1 := FullReady(3)], true), rest)
    ensures var s := Sys(NEW, STORED, map[1 := FullReady(3), 0 := Resetting(2, true)], true);
            var steps := [Advance(0)] + ([Crash(0)] + rest);
            Legal(s, steps) && Exec(s, steps) == Exec(Sys(NEW, RESET, map[1 := FullReady(3)], true), rest)
  {
    var s7 := Sys(NEW, STORED, map[1 := FullReady(3), 0 := Resetting(2, true)], true);
    var s8 := Sys(NEW, RESET, map[1 := FullReady(3), 0 := FullReady(1)], true);
    var s9 := Sys(NEW, RESET, map[1 := FullReady(3)], true);
    assert map[1 := FullReady(3), 0 := FullReady(1)] - {0} == map[1 := FullReady(3)];
    assert s7.runs[0 := FullReady(1)] == s8.runs;
    Then(s8, Crash(0), s9, rest);
    Then(s7, Advance(0), s8, [Crash(0)] + rest);
  }

  /** So does a reset while another run still holds a start UID of the old epoch. */
  lemma ResetBesideAnotherRunLosesMail() returns (steps: seq<Step>)
    ensures ValidMailbox(OLD) && Legal(Initial(OLD), steps) && LostMail(Exec(Initial(OLD), steps))
  {
    assert 'b' in "b";
    var s4 := Sys(OLD, SYNCED, map[], true);
    var s5 := Sys(OLD, SYNCED, map[1 := FullReady(3)], true);
    var s6 := Sys(NEW, SYNCED, map[1 := FullReady(3)], true);
    StaleRunWrites();
    var rest := [Advance(1)] + ([Advance(1)] + [Advance(1)]);
    ResetBesideRun(rest);
    rest := [Advance(0)] + ([Crash(0)] + rest);
    assert s6.runs[0 := Resetting(2, true)] == map[1 := FullReady(3), 0 := Resetting(2, true)];
    FindsRenumbering(s6, rest);
    rest := [BeginFull(0)] + ([Advance(0)] + ([Advance(0)] + rest));
    Then(s5, Renumber(NEW), s6, rest);
    rest := [Renumber(NEW)] + rest;
    Then(s4, BeginFull(1), s5, rest);
    rest := [BeginFull(1)] + rest;
    FirstSync(rest);
    steps := [BeginFull(0)] + ([Advance(0)] + ([Advance(0)] + ([Advance(0)] + rest)));
    assert LostMail(Sys(NEW, RESET.(cursor := Some(3)), map[], true));
  }
}
