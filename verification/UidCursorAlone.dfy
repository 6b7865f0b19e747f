/** What a run of either sync does when nobody else is at work and the mailbox stands still. */
module UidCursorAlone {
  import opened Common
  import opened UidCursor
  import opened UidCursorProtocol
  import opened UidFullSync

  /** The next statement of run r; what is listed is fetched at once. */
  function StepOf(s: Sys, r: nat): Step
    requires r in s.runs
  {
    match s.runs[r]
    case IncListed(_, _, todo, _, _) => if todo == {} then Advance(r) else FetchChunk(r, todo)
    case _ => Advance(r)
  }

  /** After at most n statements of run r, with nothing in between. */
  function RunOn(s: Sys, r: nat, n: nat): Sys
    requires ValidMailbox(s.mailbox)
    decreases n
  {
    if n == 0 || r !in s.runs then s else RunOn(Next(s, StepOf(s, r)), r, n - 1)
  }

  lemma {:induction false} RunOnOn(s: Sys, r: nat, k: nat, n: nat)
    requires ValidMailbox(s.mailbox)
    ensures RunOn(s, r, k).mailbox == s.mailbox
    ensures RunOn(s, r, k + n) == RunOn(RunOn(s, r, k), r, n)
    decreases k
  {
    if k > 0 && r in s.runs { RunOnOn(Next(s, StepOf(s, r)), r, k - 1, n); }
  }

  /** These statements are a run of the machine. */
  lemma {:induction false} RunOnIsARun(s: Sys, r: nat, n: nat) returns (steps: seq<Step>)
    requires ValidMailbox(s.mailbox)
    ensures Legal(s, steps) && Exec(s, steps) == RunOn(s, r, n)
    decreases n
  {
    steps := [];
    if n > 0 && r in s.runs {
      var rest := RunOnIsARun(Next(s, StepOf(s, r)), r, n - 1);
      steps := [StepOf(s, r)] + rest;
      assert steps[1..] == rest;
    }
  }

  /** The run in place r has come to this point, with the folder's rows as given. */
  function At(s: Sys, r: nat, f: Folder, run: Run): Sys { s.(folder := f, runs := s.runs[r := run]) }

  /** The run is over and has left the folder so. */
  function Over(s: Sys, r: nat, f: Folder): Sys { s.(folder := f, runs := s.runs - {r}) }

  lemma Once(s: Sys, r: nat, f: Folder, run: Run, f': Folder, run': Run, n: nat)
    requires ValidMailbox(s.mailbox)
    requires Next(At(s, r, f, run), StepOf(At(s, r, f, run), r)) == At(At(s, r, f, run), r, f', run')
    ensures RunOn(At(s, r, f, run), r, n + 1) == RunOn(At(s, r, f', run'), r, n)
  {
    assert At(At(s, r, f, run), r, f', run') == At(s, r, f', run');
  }

  lemma Last(s: Sys, r: nat, f: Folder, run: Run, f': Folder, n: nat)
    requires ValidMailbox(s.mailbox)
    requires Next(At(s, r, f, run), StepOf(At(s, r, f, run), r)) == Over(At(s, r, f, run), r, f')
    ensures RunOn(At(s, r, f, run), r, n + 1) == Over(s, r, f')
  {
    var t := Over(At(s, r, f, run), r, f');
    assert t.runs == s.runs - {r};
    assert RunOn(t, r, n) == t;
  }

  // The incremental sync ------------------------------------------------------------------------------

  lemma ListsNew(s: Sys, r: nat, f: Folder, since: nat)
    requires ValidMailbox(s.mailbox)
    ensures var us := NewMessages(s.mailbox, since).Keys;
            var listed := IncListed(since, us, {}, NewMessages(s.mailbox, since), s.mailbox.validity);
            RunOn(At(s, r, f, IncReady(since)), r, 5)
              == if us == {} then Over(s, r, f) else RunOn(At(s, r, f, listed), r, 3)
  {
    var m, us := s.mailbox, NewMessages(s.mailbox, since).Keys;
    NewUidsAreNewMessages(m, since, true);
    if us == {} {
      Last(s, r, f, IncReady(since), f, 4);
    } else {
      var listed := IncListed(since, us, us, map[], 0);
      Once(s, r, f, IncReady(since), f, listed, 4);
      assert us - us == {} && map[] + FetchUids(m, us) == NewMessages(m, since);
      Once(s, r, f, listed, f, IncListed(since, us, {}, NewMessages(m, since), m.validity), 3);
    }
  }

  lemma ChecksAndWrites(s: Sys, r: nat, f: Folder, since: nat, us: set<nat>, batch: map<nat, Mid>)
    requires ValidMailbox(s.mailbox) && us != {} && batch.Keys == us
    ensures RunOn(At(s, r, f, IncListed(since, us, {}, batch, s.mailbox.validity)), r, 3).(fullOnly := s.fullOnly)
         == Over(s, r, AfterIncremental(f, s.mailbox, batch))
  {
    var v := s.mailbox.validity;
    var f1 := f.(validity := Some(v));
    var listed := IncListed(since, us, {}, batch, v);
    if Mismatch(f, v) {
      Once(s, r, f, listed, f1, Resetting(v, false), 2);
      Last(s, r, f1, Resetting(v, false), f1.(cursor := None), 1);
    } else {
      var checked, upserted := IncChecked(since, us, batch, v), IncUpserted(since, us, batch, v);
      Once(s, r, f, listed, f1, checked, 2);
      if UsableOf(batch) == {} {
        Last(s, r, f1, checked, f1, 1);
      } else {
        var f2 := Upserted(f1, batch, v);
        Once(s, r, f1, checked, f2, upserted, 1);
        MovesCursor(s, r, f2, since, us, batch, v);
      }
    }
  }

  lemma MovesCursor(s: Sys, r: nat, f: Folder, since: nat, us: set<nat>, batch: map<nat, Mid>, v: nat)
    requires ValidMailbox(s.mailbox) && us != {}
    ensures RunOn(At(s, r, f, IncUpserted(since, us, batch, v)), r, 1).(fullOnly := s.fullOnly)
         == Over(s, r, f.(cursor := Some(Top(us))))
  {
    var t := At(s, r, f, IncUpserted(since, us, batch, v));
    assert Next(t, Advance(r)) == Over(t, r, f.(cursor := Some(Top(us)))).(fullOnly := false);
    assert t.runs - {r} == s.runs - {r};
    assert RunOn(Next(t, Advance(r)), r, 0) == Next(t, Advance(r));
  }

  /** An incremental run left alone is over after five statements and leaves what the method leaves. */
  lemma IncrementalRunAlone(s: Sys, r: nat)
    requires ValidMailbox(s.mailbox) && r in s.runs && s.folder.cursor.Some? && s.runs[r] == IncReady(s.folder.cursor.value)
    ensures var f' := AfterIncremental(s.folder, s.mailbox, NewMessages(s.mailbox, s.folder.cursor.value));
            RunOn(s, r, 5).(fullOnly := s.fullOnly) == Over(s, r, f')
  {
    var since := s.folder.cursor.value;
    var batch := NewMessages(s.mailbox, since);
    assert s == At(s, r, s.folder, IncReady(since));
    ListsNew(s, r, s.folder, since);
    if batch.Keys != {} { ChecksAndWrites(s, r, s.folder, since, batch.Keys, batch); }
  }

  // The full sync -------------------------------------------------------------------------------------

  /** What is known of the rows when everything above lo and below start has been gone through. */
  ghost predicate Done(m: Mailbox, f0: Folder, f: Folder, lo: nat, start: nat)
    requires ValidMailbox(m)
  {
    && 1 <= start <= Highest(m) + 1
    && Grew(f0, f, m) && Accounted(f, m, lo, start - 1) && !Renumbered(f, m)
    && (f.cursor == Some(start - 1) || (start == 1 && f.cursor == None))
  }

  /** After the write of cursor c the run is over or goes on behind it. */
  function Behind(s: Sys, r: nat, f: Folder, c: nat): Sys
    requires ValidMailbox(s.mailbox)
  {
    var f' := f.(cursor := Some(c));
    if c >= Highest(s.mailbox) then Over(s, r, f') else At(s, r, f', FullReady(SatAdd32(c, 1)))
  }

  lemma Fetches(s: Sys, r: nat, f: Folder, start: nat, n: nat)
    requires ValidMailbox(s.mailbox) && !Renumbered(f, s.mailbox)
    ensures var m := s.mailbox;
            var got := Fetched(start, m.validity, Highest(m), FetchRange(m, start));
            RunOn(At(s, r, f, FullReady(start)), r, n + 2) == RunOn(At(s, r, f.(validity := Some(m.validity)), FullChecked(got)), r, n)
  {
    var m := s.mailbox;
    var got := Fetched(start, m.validity, Highest(m), FetchRange(m, start));
    Once(s, r, f, FullReady(start), f, FullFetched(got), n + 1);
    Once(s, r, f, FullFetched(got), f.(validity := Some(m.validity)), FullChecked(got), n);
  }

  /** One statement that writes cursor c. */
  lemma WritesCursor(s: Sys, r: nat, f: Folder, run: Run, c: nat)
    requires ValidMailbox(s.mailbox) && !run.IncListed?
    requires AdvanceRun(At(s, r, f, run), r) == Wrote(At(s, r, f, run), r, c, Highest(s.mailbox))
    ensures RunOn(At(s, r, f, run), r, 1) == Behind(s, r, f, c)
  {
    var f' := f.(cursor := Some(c));
    if c >= Highest(s.mailbox) {
      Last(s, r, f, run, f', 0);
    } else {
      Once(s, r, f, run, f', FullReady(SatAdd32(c, 1)), 0);
    }
  }

  lemma ImportsFetched(s: Sys, r: nat, f: Folder, got: Fetched)
    requires ValidMailbox(s.mailbox) && got.batch != map[] && got.validity == s.mailbox.validity && got.uidEnd == Highest(s.mailbox)
    ensures var v, us := s.mailbox.validity, UsableOf(got.batch);
            var f1 := MissingRecorded(f, Blanks(got.batch), v);
            var after := if us == {} then Behind(s, r, f1, Top(got.batch.Keys)) else Behind(s, r, Upserted(f1, got.batch, v), Top(us));
            RunOn(At(s, r, f, FullChecked(got)), r, if us == {} then 2 else 3) == after
  {
    var v, us := s.mailbox.validity, UsableOf(got.batch);
    var f1 := MissingRecorded(f, Blanks(got.batch), v);
    if us == {} {
      Once(s, r, f, FullChecked(got), f1, FullRecorded(got), 1);
      WritesCursor(s, r, f1, FullRecorded(got), Top(got.batch.Keys));
    } else {
      var f2 := Upserted(f1, got.batch, v);
      Once(s, r, f, FullChecked(got), f1, FullRecorded(got), 2);
      Once(s, r, f1, FullRecorded(got), f2, FullUpserted(got), 1);
      WritesCursor(s, r, f2, FullUpserted(got), Top(us));
    }
  }

  /** The rows written for a fetched range account for it. */
  lemma ImportAccounts(m: Mailbox, f0: Folder, f: Folder, lo: nat, start: nat) returns (c: nat, f2: Folder)
    requires ValidMailbox(m) && start <= Highest(m) && Done(m, f0, f, lo, start) && FetchRange(m, start) != map[]
    ensures var batch, us := FetchRange(m, start), UsableOf(FetchRange(m, start));
            var f1 := MissingRecorded(f.(validity := Some(m.validity)), Blanks(batch), m.validity);
            && c == (if us == {} then Top(batch.Keys) else Top(us))
            && f2 == (if us == {} then f1 else Upserted(f1, batch, m.validity))
    ensures start <= c <= Highest(m) && Done(m, f0, f2.(cursor := Some(c)), lo, c + 1)
  {
    var batch := FetchRange(m, start);
    FetchedRange(m, start);
    var us, f' := UsableOf(batch), f.(validity := Some(m.validity));
    var f1 := MissingRecorded(f', Blanks(batch), m.validity);
    c := if us == {} then Top(batch.Keys) else Top(us);
    f2 := if us == {} then f1 else Upserted(f1, batch, m.validity);
    RecordGrows(f', f1, batch, m);
    UpsertGrows(f1, batch, m);
    GrewTwice(f', f1, f2, m);
    GrewTwice(f0, f', f2, m);
    forall u | u in m.msgs && start <= u <= c
      ensures if Usable(m.msgs[u]) then Imported(f2, m.validity, u, m.msgs[u]) else Place(u, m.validity) in f2.missing
    {
      assert u in batch && batch[u] == m.msgs[u];
      if Usable(batch[u]) { UpsertImports(f1, batch, m.validity, u); } else { assert u in Blanks(batch); }
    }
    BatchAccounted(f, f2, m, lo, start, c);
  }

  /** An empty range holds nothing to account for. */
  lemma EmptyAccounts(m: Mailbox, f0: Folder, f: Folder, lo: nat, start: nat)
    requires ValidMailbox(m) && start <= Highest(m) && Done(m, f0, f, lo, start) && FetchRange(m, start) == map[]
    ensures var c, f' := RangeEnd(start, Highest(m)), f.(validity := Some(m.validity));
            start <= c && Done(m, f0, f'.(cursor := Some(c)), lo, c + 1)
  {
    var c, f' := RangeEnd(start, Highest(m)), f.(validity := Some(m.validity));
    FetchedRange(m, start);
    assert forall u :: u in m.msgs && start <= u <= c ==> u in FetchRange(m, start).Keys;
    BatchAccounted(f, f', m, lo, start, c);
  }

  /** One pass over a range: the run is behind it, or over with everything gone through. */
  lemma OnePass(s: Sys, r: nat, f0: Folder, f: Folder, lo: nat, start: nat) returns (n: nat, c: nat, f': Folder)
    requires ValidMailbox(s.mailbox) && Done(s.mailbox, f0, f, lo, start) && start <= Highest(s.mailbox)
    ensures start <= c && Done(s.mailbox, f0, f'.(cursor := Some(c)), lo, c + 1) && f'.validity == Some(s.mailbox.validity)
    ensures RunOn(At(s, r, f, FullReady(start)), r, n) == Behind(s, r, f', c)
  {
    var m := s.mailbox;
    var f1 := f.(validity := Some(m.validity));
    var got := Fetched(start, m.validity, Highest(m), FetchRange(m, start));
    if got.batch == map[] {
      n, c, f' := 3, RangeEnd(start, Highest(m)), f1;
      EmptyAccounts(m, f0, f, lo, start);
      Fetches(s, r, f, start, 1);
      WritesCursor(s, r, f1, FullChecked(got), c);
    } else {
      c, f' := ImportAccounts(m, f0, f, lo, start);
      n := if UsableOf(got.batch) == {} then 4 else 5;
      Fetches(s, r, f, start, n - 2);
      ImportsFetched(s, r, f1, got);
    }
  }

  /** From a start that is covered the run goes through the rest of the mailbox. */
  lemma {:induction false} PassesToTheEnd(s: Sys, r: nat, f0: Folder, f: Folder, lo: nat, start: nat) returns (n: nat, f': Folder)
    requires ValidMailbox(s.mailbox) && Done(s.mailbox, f0, f, lo, start)
    ensures RunOn(At(s, r, f, FullReady(start)), r, n) == Over(s, r, f')
    ensures Synced(f', s.mailbox, lo) && Grew(f0, f', s.mailbox)
    decreases Highest(s.mailbox) + 1 - start
  {
    var m := s.mailbox;
    if start == Highest(m) + 1 {
      n, f' := EndsSynced(s, r, f0, f, lo, start);
    } else {
      var k, c, f1 := OnePass(s, r, f0, f, lo, start);
      f' := f1.(cursor := Some(c));
      if c >= Highest(m) {
        n := k;
        BehindTheEnd(s, r, f0, f1, lo, c);
      } else {
        var more;
        more, f' := PassesToTheEnd(s, r, f0, f1.(cursor := Some(c)), lo, c + 1);
        n := k + more;
        RunOnOn(At(s, r, f, FullReady(start)), r, k, more);
      }
    }
  }

  /** Behind the last UID, or in a mailbox that never held mail, the run is over at once. */
  lemma NothingLeft(s: Sys, r: nat, f: Folder, start: nat) returns (n: nat, f': Folder)
    requires ValidMailbox(s.mailbox) && !Renumbered(f, s.mailbox) && start > Highest(s.mailbox) && start >= 1
    ensures n == 3 && RunOn(At(s, r, f, FullReady(start)), r, n) == Over(s, r, f') && f' == LeftAlone(f, s.mailbox)
  {
    var m := s.mailbox;
    NothingPastTheEnd(m, start);
    n, f' := 3, LeftAlone(f, m);
    Fetches(s, r, f, start, 1);
    Last(s, r, f.(validity := Some(m.validity)), FullChecked(Fetched(start, m.validity, Highest(m), FetchRange(m, start))), f', 0);
  }

  lemma EndsSynced(s: Sys, r: nat, f0: Folder, f: Folder, lo: nat, start: nat) returns (n: nat, f': Folder)
    requires ValidMailbox(s.mailbox) && Done(s.mailbox, f0, f, lo, start) && start == Highest(s.mailbox) + 1
    ensures RunOn(At(s, r, f, FullReady(start)), r, n) == Over(s, r, f')
    ensures Synced(f', s.mailbox, lo) && Grew(f0, f', s.mailbox)
  {
    n, f' := NothingLeft(s, r, f, start);
    AccountedBelow(f, s.mailbox, lo, start - 1, Highest(s.mailbox));
    ExtendsAccounted(f, f', s.mailbox, lo, Highest(s.mailbox));
  }

  /** Behind the last cursor write: all there is has been gone through. */
  lemma BehindTheEnd(s: Sys, r: nat, f0: Folder, f: Folder, lo: nat, c: nat)
    requires ValidMailbox(s.mailbox) && c >= Highest(s.mailbox) && f.validity == Some(s.mailbox.validity)
    requires Done(s.mailbox, f0, f.(cursor := Some(c)), lo, c + 1)
    ensures Behind(s, r, f, c) == Over(s, r, f.(cursor := Some(c)))
    ensures Synced(f.(cursor := Some(c)), s.mailbox, lo) && Grew(f0, f.(cursor := Some(c)), s.mailbox)
  {
  }

  /** The old cursor is dropped, and the run starts again from UID 1. */
  lemma StartsAgain(s: Sys, r: nat, f: Folder, start: nat, n: nat)
    requires ValidMailbox(s.mailbox) && Renumbered(f, s.mailbox)
    ensures RunOn(At(s, r, f, FullReady(start)), r, n + 3)
         == RunOn(At(s, r, f.(cursor := None, validity := Some(s.mailbox.validity)), FullReady(1)), r, n)
  {
    var m, f1 := s.mailbox, f.(validity := Some(s.mailbox.validity));
    var got := Fetched(start, m.validity, Highest(m), FetchRange(m, start));
    Once(s, r, f, FullReady(start), f, FullFetched(got), n + 2);
    Once(s, r, f, FullFetched(got), f1, Resetting(m.validity, true), n + 1);
    Once(s, r, f1, Resetting(m.validity, true), f1.(cursor := None), FullReady(1), n);
  }

  /** A full run left alone comes to its end and leaves what the method promises. */
  lemma FullRunAlone(s: Sys, r: nat) returns (n: nat, f': Folder)
    requires ValidMailbox(s.mailbox) && Bounded(s.folder)
    requires r in s.runs && s.runs[r] == FullReady(StartUid(s.folder))
    ensures RunOn(s, r, n) == Over(s, r, f')
    ensures Grew(s.folder, f', s.mailbox)
    ensures if PastTheEnd(s.folder, s.mailbox) then f' == LeftAlone(s.folder, s.mailbox)
            else Synced(f', s.mailbox, Origin(s.folder, s.mailbox))
  {
    var f, m, start := s.folder, s.mailbox, StartUid(s.folder);
    assert s == At(s, r, f, FullReady(start));
    NothingToAccount(f, m, Origin(f, m));
    if PastTheEnd(f, m) {
      n, f' := NothingLeft(s, r, f, start);
    } else if Renumbered(f, m) {
      var f1 := f.(cursor := None, validity := Some(m.validity));
      NothingToAccount(f1, m, 0);
      n, f' := PassesToTheEnd(s, r, f, f1, 0, 1);
      StartsAgain(s, r, f, start, n);
      n := n + 3;
    } else {
      n, f' := PassesToTheEnd(s, r, f, f, Origin(f, m), start);
    }
  }
}
