/** What becomes of a session when its caller is done with it. */
module SessionReuse {
  import opened Common
  import opened SessionPool

  // When a call succeeds ------------------------------------------------------------------------------

  /** Caller c works with its session; others do as they like but leave c alone. */
  predicate WorksOn(e: Step, c: nat) {
    CallerOf(e) == Some(c) ==> e.EnsureSelected? || e.SelectAnew? || e.SelectFails? || e.List? || e.CommandFails?
  }

  /** One of the caller's commands failed. */
  ghost predicate Fails(run: seq<Step>, c: nat) {
    exists i :: 0 <= i < |run| && (run[i].CommandFails? || run[i].SelectFails?) && run[i].c == c
  }

  lemma {:induction false} WorkGoesOn(s: Pool, run: seq<Step>, c: nat)
    requires Legal(s, run) && c in s.callers && s.callers[c].Working?
    requires forall i :: 0 <= i < |run| ==> WorksOn(run[i], c)
    ensures var t := Exec(s, run);
            && c in t.callers && t.callers[c].Working? && t.callers[c].p.sid == s.callers[c].p.sid
            && (t.callers[c].failed <==> s.callers[c].failed || Fails(run, c))
    decreases |run|
  {
    if run != [] {
      assert WorksOn(run[0], c);
      WorkGoesOn(Next(s, run[0]), run[1..], c);
      assert Fails(run, c) <==> ((run[0].CommandFails? || run[0].SelectFails?) && run[0].c == c) || Fails(run[1..], c) by {
        if i :| 0 <= i < |run| && (run[i].CommandFails? || run[i].SelectFails?) && run[i].c == c {
          if i > 0 { assert run[1..][i - 1] == run[i]; }
        }
        if i :| 0 <= i < |run[1..]| && (run[1..][i].CommandFails? || run[1..][i].SelectFails?) && run[1..][i].c == c {
          assert run[i + 1] == run[1..][i];
        }
      }
    }
  }

  /** A call ends with the session it borrowed, successfully exactly when none of its commands failed. */
  lemma CallSucceedsIffNothingFails(s: Pool, c: nat, run: seq<Step>)
    requires Enabled(s, Begin(c)) && Legal(Next(s, Begin(c)), run)
    requires forall i :: 0 <= i < |run| ==> WorksOn(run[i], c)
    ensures var t := Exec(Next(s, Begin(c)), run);
            && Enabled(t, End(c))
            && var ph := Next(t, End(c)).callers[c];
            ph.Returning? && ph.p.sid == s.callers[c].p.sid && (ph.success <==> !Fails(run, c))
  {
    WorkGoesOn(Next(s, Begin(c)), run, c);
  }

  // A session that worked is used again ---------------------------------------------------------------

  /** The step takes nothing from the idle stack and puts nothing on it. */
  predicate LeavesIdle(e: Step) { !e.Borrow? && !e.GiveBack? && !e.Disconnect? }

  lemma {:induction false} IdleStays(s: Pool, run: seq<Step>)
    requires Legal(s, run) && forall i :: 0 <= i < |run| ==> LeavesIdle(run[i])
    ensures Exec(s, run).idle == s.idle
    decreases |run|
  {
    if run != [] {
      assert LeavesIdle(run[0]);
      IdleStays(Next(s, run[0]), run[1..]);
    }
  }

  /** The next to borrow gets the session just returned, with its record, and does not connect. */
  lemma ReturnedIsBorrowedNext(s: Pool, c: nat, p: Pooled, run: seq<Step>, d: nat)
    requires c in s.callers && s.callers[c] == Returning(p, true)
    requires Legal(Next(s, GiveBack(c)), run) && forall i :: 0 <= i < |run| ==> LeavesIdle(run[i])
    requires Enabled(Exec(Next(s, GiveBack(c)), run), Borrow(d))
    ensures var t := Next(Exec(Next(s, GiveBack(c)), run), Borrow(d));
            t.callers[d] == Borrowed(p) && t.idle == s.idle
  {
    IdleStays(Next(s, GiveBack(c)), run);
    assert (s.idle + [p])[..|s.idle|] == s.idle;
  }

  // One that failed is not ------------------------------------------------------------------------------

  /** The connection was made, and nobody has it any longer. */
  ghost predicate Gone(s: Pool, sid: nat) {
    && sid in s.server
    && (forall i :: 0 <= i < |s.idle| ==> s.idle[i].sid != sid)
    && (forall c :: c in s.callers && HasSession(s.callers[c]) ==> s.callers[c].p.sid != sid)
  }

  lemma {:induction false} StaysGone(s: Pool, run: seq<Step>, sid: nat)
    requires Legal(s, run) && Gone(s, sid)
    ensures Gone(Exec(s, run), sid)
    decreases |run|
  {
    if run != [] {
      StepKeepsGone(s, run[0], sid);
      StaysGone(Next(s, run[0]), run[1..], sid);
    }
  }

  lemma StepKeepsGone(s: Pool, e: Step, sid: nat)
    requires Enabled(s, e) && Gone(s, sid)
    ensures Gone(Next(s, e), sid)
  {
  }

  /** However the run goes on, nobody ever gets the connection of a call that failed. */
  lemma FailedIsNeverReused(size: nat, before: seq<Step>, c: nat, p: Pooled, run: seq<Step>)
    requires Legal(Fresh(size), before)
    requires c in Exec(Fresh(size), before).callers && Exec(Fresh(size), before).callers[c] == Returning(p, false)
    requires Legal(Next(Exec(Fresh(size), before), GiveBack(c)), run)
    ensures Gone(Exec(Next(Exec(Fresh(size), before), GiveBack(c)), run), p.sid)
  {
    var s := Exec(Fresh(size), before);
    RunKeepsInv(Fresh(size), before, size);
    StaysGone(Next(s, GiveBack(c)), run, p.sid);
  }

  // No session is lost or made up -------------------------------------------------------------------------

  function Holders(callers: map<nat, Phase>): set<nat> { set c | c in callers && HasSession(callers[c]) }

  /** Sessions at hand: idle or with a caller. */
  function AtHand(s: Pool): nat { |s.idle| + |Holders(s.callers)| }

  function Connects(run: seq<Step>): nat {
    if run == [] then 0 else (if run[0].ConnectOk? then 1 else 0) + Connects(run[1..])
  }

  /** The sessions given up: by failed calls and dropped ones, and all idle ones on a disconnect. */
  function GivenUp(s: Pool, run: seq<Step>): nat
    requires Legal(s, run)
    decreases |run|
  {
    if run == [] then 0
    else
      (match run[0]
       case GiveBack(c) => if s.callers[c].success then 0 else 1
       case Abandon(c) => if HasSession(s.callers[c]) then 1 else 0
       case Disconnect => |s.idle|
       case _ => 0)
      + GivenUp(Next(s, run[0]), run[1..])
  }

  lemma HoldersSet(callers: map<nat, Phase>, c: nat, ph: Phase)
    ensures |Holders(callers[c := ph])| ==
      |Holders(callers)| - (if c in Holders(callers) then 1 else 0) + (if HasSession(ph) then 1 else 0)
  {
    if HasSession(ph) {
      assert Holders(callers[c := ph]) == Holders(callers) + {c};
    } else {
      assert Holders(callers[c := ph]) == Holders(callers) - {c};
    }
  }

  lemma HoldersWithout(callers: map<nat, Phase>, c: nat)
    requires c in callers
    ensures |Holders(Without(callers, c))| == |Holders(callers)| - if HasSession(callers[c]) then 1 else 0
  {
    assert Holders(Without(callers, c)) == Holders(callers) - {c};
  }

  lemma StepConserves(s: Pool, e: Step)
    requires Enabled(s, e)
    ensures AtHand(Next(s, e)) == AtHand(s) + (if e.ConnectOk? then 1 else 0) -
      match e
      case GiveBack(c) => if s.callers[c].success then 0 else 1
      case Abandon(c) => if HasSession(s.callers[c]) then 1 else 0
      case Disconnect => |s.idle|
      case _ => 0
  {
    if e.ConnectFails? || e.Release? || e.Abandon? {
      HoldersWithout(s.callers, e.c);
    } else if CallerOf(e).Some? && !Idle(s, e) {
      var ph := Next(s, e).callers[e.c];
      assert Next(s, e).callers == s.callers[e.c := ph];
      HoldersSet(s.callers, e.c, ph);
    }
  }

  lemma {:induction false} RunConserves(s: Pool, run: seq<Step>)
    requires Legal(s, run)
    ensures AtHand(Exec(s, run)) + GivenUp(s, run) == AtHand(s) + Connects(run)
    decreases |run|
  {
    if run != [] {
      StepConserves(s, run[0]);
      RunConserves(Next(s, run[0]), run[1..]);
    }
  }

  /** In every run: the sessions connected are those at hand and those given up. */
  lemma SessionsAreConserved(size: nat, run: seq<Step>)
    requires Legal(Fresh(size), run)
    ensures Connects(run) == AtHand(Exec(Fresh(size), run)) + GivenUp(Fresh(size), run)
  {
    RunConserves(Fresh(size), run);
    assert Holders(map[]) == {};
  }

  // The mailbox list ------------------------------------------------------------------------------------

  /** Caller c works on, and does not list again; others do as they like but leave c alone. */
  predicate KeepsListing(e: Step, c: nat) {
    CallerOf(e) == Some(c) ==> e.EnsureSelected? || e.SelectAnew? || (e.List? && e.useCached)
  }

  lemma {:induction false} ListingStays(s: Pool, run: seq<Step>, c: nat, listing: Option<nat>)
    requires Legal(s, run) && Busy(s, c) && s.callers[c].listing == listing
    requires forall i :: 0 <= i < |run| ==> KeepsListing(run[i], c)
    ensures Busy(Exec(s, run), c) && Exec(s, run).callers[c].listing == listing
    decreases |run|
  {
    if run != [] {
      assert KeepsListing(run[0], c);
      ListingStays(Next(s, run[0]), run[1..], c, listing);
    }
  }

  /** A call that has listed the mailboxes leaves that list in the cache when it ends. */
  lemma FreshListIsCached(s: Pool, c: nat, run: seq<Step>)
    requires Enabled(s, List(c, false)) && Legal(Next(s, List(c, false)), run)
    requires forall i :: 0 <= i < |run| ==> KeepsListing(run[i], c)
    ensures var t := Exec(Next(s, List(c, false)), run);
            Busy(t, c) && Next(t, End(c)).cache == Some(s.version)
  {
    ListingStays(Next(s, List(c, false)), run, c, Some(s.version));
  }

  /** A call begins with the cached list, and one without a list leaves the cache as it finds it. */
  lemma CachedListIsHandedOn(s: Pool, c: nat, run: seq<Step>)
    requires Enabled(s, Begin(c)) && Legal(Next(s, Begin(c)), run)
    requires forall i :: 0 <= i < |run| ==> KeepsListing(run[i], c)
    ensures var t := Exec(Next(s, Begin(c)), run);
            Busy(t, c) && t.callers[c].listing == s.cache && Next(t, End(c)).cache == if s.cache.Some? then s.cache else t.cache
  {
    ListingStays(Next(s, Begin(c)), run, c, s.cache);
  }
}
