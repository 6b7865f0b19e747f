/** The pool of IMAP sessions: a semaphore, a stack of idle sessions, and callers that may fail or be dropped anywhere. */
module SessionPool {
  import opened Common

  /** A session as the pool keeps it: which connection it is and the mailbox it is believed to have selected. */
  datatype Pooled = Pooled(sid: nat, selected: Option<string>)

  /** How far a call of with_active_session has come. */
  datatype Phase =
    | Permitted
    | Connecting
    | Borrowed(p: Pooled)
    | Working(p: Pooled, listing: Option<nat>, failed: bool)
    | Returning(p: Pooled, success: bool)
    | Leaving

  /**
   * The pool, its callers, and the server: the mailbox really selected on each connection, and the
   * number of changes made to the folder list so far. A cached listing is the number it was made at.
   * Lost counts the borrows that were never handed back.
   */
  datatype Pool = Pool(
    permits: nat,
    idle: seq<Pooled>,
    borrowed: nat,
    cache: Option<nat>,
    callers: map<nat, Phase>,
    server: map<nat, Option<string>>,
    version: nat,
    lost: nat
  )

  datatype Step =
    | Acquire(c: nat)
    | Borrow(c: nat)
    | ConnectOk(c: nat, sid: nat)
    | ConnectFails(c: nat)
    | Begin(c: nat)
    | EnsureSelected(c: nat, mailbox: string)
    | SelectAnew(c: nat, mailbox: string)
    | SelectFails(c: nat, left: Option<string>)
    | List(c: nat, useCached: bool)
    | CommandFails(c: nat)
    | End(c: nat)
    | GiveBack(c: nat)
    | Release(c: nat)
    | Abandon(c: nat)
    | Invalidate
    | Disconnect
    | FoldersChange

  function Fresh(size: nat): Pool { Pool(size, [], 0, None, map[], map[], 0, 0) }

  predicate HasSession(ph: Phase) { ph.Borrowed? || ph.Working? || ph.Returning? }

  predicate InUse(ph: Phase) { ph.Connecting? || HasSession(ph) }

  /** The belief about the selected mailbox is still kept up. */
  predicate Trusted(ph: Phase) {
    ph.Borrowed? || (ph.Working? && !ph.failed) || (ph.Returning? && ph.success)
  }

  predicate Busy(s: Pool, c: nat) { c in s.callers && s.callers[c].Working? && !s.callers[c].failed }

  predicate Enabled(s: Pool, e: Step) {
    match e
    case Acquire(c) => c !in s.callers && s.permits > 0
    case Borrow(c) => c in s.callers && s.callers[c].Permitted?
    case ConnectOk(c, sid) => c in s.callers && s.callers[c].Connecting? && sid !in s.server
    case ConnectFails(c) => c in s.callers && s.callers[c].Connecting?
    case Begin(c) => c in s.callers && s.callers[c].Borrowed?
    case EnsureSelected(c, _) => Busy(s, c)
    case SelectAnew(c, _) => Busy(s, c)
    case SelectFails(c, _) => Busy(s, c)
    case List(c, useCached) => Busy(s, c) && (useCached ==> s.callers[c].listing.Some?)
    case CommandFails(c) => Busy(s, c)
    case End(c) => c in s.callers && s.callers[c].Working?
    case GiveBack(c) => c in s.callers && s.callers[c].Returning?
    case Release(c) => c in s.callers && s.callers[c].Leaving?
    case Abandon(c) => c in s.callers
    case Invalidate => true
    case Disconnect => true
    case FoldersChange => true
  }

  function Without<T>(m: map<nat, T>, c: nat): map<nat, T> { map k | k in m && k != c :: m[k] }

  function Select(s: Pool, c: nat, mailbox: string): Pool
    requires Busy(s, c)
  {
    var ph := s.callers[c];
    s.(callers := s.callers[c := Working(ph.p.(selected := Some(mailbox)), ph.listing, false)],
       server := s.server[ph.p.sid := Some(mailbox)])
  }

  function Next(s: Pool, e: Step): Pool
    requires Enabled(s, e)
  {
    match e
    case Acquire(c) => s.(permits := s.permits - 1, callers := s.callers[c := Permitted])
    case Borrow(c) =>
      if s.idle != [] then
        var last := |s.idle| - 1;
        s.(borrowed := s.borrowed + 1, idle := s.idle[..last], callers := s.callers[c := Borrowed(s.idle[last])])
      else
        s.(borrowed := s.borrowed + 1, callers := s.callers[c := Connecting])
    case ConnectOk(c, sid) =>
      s.(callers := s.callers[c := Borrowed(Pooled(sid, None))], server := s.server[sid := None])
    case ConnectFails(c) => s.(callers := Without(s.callers, c), permits := s.permits + 1, lost := s.lost + 1)
    case Begin(c) => s.(callers := s.callers[c := Working(s.callers[c].p, s.cache, false)])
    case EnsureSelected(c, mailbox) =>
      if s.callers[c].p.selected == Some(mailbox) then s else Select(s, c, mailbox)
    case SelectAnew(c, mailbox) => Select(s, c, mailbox)
    case SelectFails(c, left) =>
      s.(callers := s.callers[c := s.callers[c].(failed := true)], server := s.server[s.callers[c].p.sid := left])
    case List(c, useCached) =>
      if useCached then s else s.(callers := s.callers[c := s.callers[c].(listing := Some(s.version))])
    case CommandFails(c) => s.(callers := s.callers[c := s.callers[c].(failed := true)])
    case End(c) =>
      var ph := s.callers[c];
      s.(callers := s.callers[c := Returning(ph.p, !ph.failed)],
         cache := if ph.listing.Some? then ph.listing else s.cache)
    case GiveBack(c) =>
      var ph := s.callers[c];
      s.(borrowed := SatSub(s.borrowed, 1), callers := s.callers[c := Leaving],
         idle := if ph.success then s.idle + [ph.p] else s.idle)
    case Release(c) => s.(callers := Without(s.callers, c), permits := s.permits + 1)
    case Abandon(c) =>
      s.(callers := Without(s.callers, c), permits := s.permits + 1,
         lost := if InUse(s.callers[c]) then s.lost + 1 else s.lost)
    case Invalidate => s.(cache := None)
    case Disconnect => s.(idle := [], cache := None)
    case FoldersChange => s.(version := s.version + 1)
  }

  predicate Legal(s: Pool, run: seq<Step>)
    decreases |run|
  {
    run == [] || (Enabled(s, run[0]) && Legal(Next(s, run[0]), run[1..]))
  }

  function Exec(s: Pool, run: seq<Step>): Pool
    requires Legal(s, run)
    decreases |run|
  {
    if run == [] then s else Exec(Next(s, run[0]), run[1..])
  }

  // What every step keeps ---------------------------------------------------------------------

  function Users(callers: map<nat, Phase>): set<nat> { set c | c in callers && InUse(callers[c]) }

  ghost predicate Counted(s: Pool, size: nat) {
    && s.permits + |s.callers| == size
    && |s.idle| + |Users(s.callers)| <= size
    && s.borrowed == |Users(s.callers)| + s.lost
  }

  /** Callers and the idle stack never share a connection. */
  ghost predicate Exclusive(s: Pool) {
    && (forall i, j :: 0 <= i < j < |s.idle| ==> s.idle[i].sid != s.idle[j].sid)
    && (forall c, i :: c in s.callers && HasSession(s.callers[c]) && 0 <= i < |s.idle| ==>
          s.callers[c].p.sid != s.idle[i].sid)
    && (forall c, d :: c in s.callers && d in s.callers && c != d && HasSession(s.callers[c]) && HasSession(s.callers[d]) ==>
          s.callers[c].p.sid != s.callers[d].p.sid)
  }

  /** What is believed about the selected mailbox is so. */
  ghost predicate Agrees(s: Pool) {
    && (forall i :: 0 <= i < |s.idle| ==> s.idle[i].sid in s.server && s.server[s.idle[i].sid] == s.idle[i].selected)
    && (forall c :: c in s.callers && HasSession(s.callers[c]) ==> s.callers[c].p.sid in s.server)
    && (forall c :: c in s.callers && Trusted(s.callers[c]) ==>
          s.server[s.callers[c].p.sid] == s.callers[c].p.selected)
  }

  lemma UsersPlus(callers: map<nat, Phase>, c: nat, ph: Phase)
    requires InUse(ph)
    ensures Users(callers[c := ph]) == Users(callers) + {c}
  {
  }

  lemma UsersMinus(callers: map<nat, Phase>, c: nat, ph: Phase)
    requires !InUse(ph)
    ensures Users(callers[c := ph]) == Users(callers) - {c}
  {
  }

  lemma UsersSet(callers: map<nat, Phase>, c: nat, ph: Phase)
    ensures |Users(callers[c := ph])| ==
      |Users(callers)| - (if c in Users(callers) then 1 else 0) + (if InUse(ph) then 1 else 0)
  {
    if InUse(ph) { UsersPlus(callers, c, ph); } else { UsersMinus(callers, c, ph); }
  }

  lemma CallersSet(callers: map<nat, Phase>, c: nat, ph: Phase)
    ensures |callers[c := ph]| == |callers| + if c in callers then 0 else 1
  {
    assert callers[c := ph].Keys == callers.Keys + {c};
    assert |callers[c := ph].Keys| == |callers[c := ph]| && |callers.Keys| == |callers|;
  }

  lemma UsersWithout(callers: map<nat, Phase>, c: nat)
    requires c in callers
    ensures Users(Without(callers, c)) == Users(callers) - {c}
    ensures |Users(Without(callers, c))| == |Users(callers)| - if InUse(callers[c]) then 1 else 0
    ensures |Without(callers, c)| == |callers| - 1
  {
    assert Without(callers, c).Keys == callers.Keys - {c};
    assert |Without(callers, c).Keys| == |callers.Keys| - 1;
  }

  lemma UsersBounded(callers: map<nat, Phase>)
    ensures |Users(callers)| <= |callers|
  {
    SubsetSize(Users(callers), callers.Keys);
  }

  function CallerOf(e: Step): Option<nat> {
    match e
    case Invalidate => None
    case Disconnect => None
    case FoldersChange => None
    case _ => Some(e.c)
  }

  lemma StepKeepsCounts(s: Pool, e: Step, size: nat)
    requires Enabled(s, e) && Counted(s, size)
    ensures Counted(Next(s, e), size)
  {
    if e.ConnectFails? || e.Release? || e.Abandon? {
      UsersWithout(s.callers, e.c);
    } else if e.Borrow? || e.Acquire? {
      BorrowKeepsCounts(s, e, size);
    } else if CallerOf(e).Some? && !Idle(s, e) {
      MoveKeepsCounts(s, e, size);
    }
  }

  /** Steps that use what is there already. */
  predicate Idle(s: Pool, e: Step) {
    || (e.List? && e.useCached)
    || (e.EnsureSelected? && e.c in s.callers && HasSession(s.callers[e.c]) && s.callers[e.c].p.selected == Some(e.mailbox))
  }

  lemma BorrowKeepsCounts(s: Pool, e: Step, size: nat)
    requires Enabled(s, e) && Counted(s, size) && (e.Borrow? || e.Acquire?)
    ensures Counted(Next(s, e), size)
  {
    var t := Next(s, e);
    UsersSet(s.callers, e.c, t.callers[e.c]);
    CallersSet(s.callers, e.c, t.callers[e.c]);
    UsersBounded(t.callers);
  }

  lemma MoveKeepsCounts(s: Pool, e: Step, size: nat)
    requires Enabled(s, e) && Counted(s, size)
    requires CallerOf(e).Some? && !Idle(s, e)
    requires !e.ConnectFails? && !e.Release? && !e.Abandon? && !e.Borrow? && !e.Acquire?
    ensures Counted(Next(s, e), size)
  {
    var ph := Next(s, e).callers[e.c];
    assert Next(s, e).callers == s.callers[e.c := ph];
    UsersSet(s.callers, e.c, ph);
    CallersSet(s.callers, e.c, ph);
  }

  lemma StepKeepsExclusive(s: Pool, e: Step)
    requires Enabled(s, e) && Exclusive(s) && Agrees(s)
    ensures Exclusive(Next(s, e))
  {
    if e.Borrow? {
      BorrowKeepsExclusive(s, e.c);
    } else if e.GiveBack? {
      GiveBackKeepsExclusive(s, e.c);
    } else {
      OthersKeepExclusive(s, e);
    }
  }

  lemma BorrowKeepsExclusive(s: Pool, c: nat)
    requires Enabled(s, Borrow(c)) && Exclusive(s)
    ensures Exclusive(Next(s, Borrow(c)))
  {
  }

  lemma GiveBackKeepsExclusive(s: Pool, c: nat)
    requires Enabled(s, GiveBack(c)) && Exclusive(s)
    ensures Exclusive(Next(s, GiveBack(c)))
  {
  }

  lemma OthersKeepExclusive(s: Pool, e: Step)
    requires Enabled(s, e) && Exclusive(s) && Agrees(s) && !e.Borrow? && !e.GiveBack?
    ensures Exclusive(Next(s, e))
  {
  }

  lemma StepKeepsAgreement(s: Pool, e: Step)
    requires Enabled(s, e) && Exclusive(s) && Agrees(s)
    ensures Agrees(Next(s, e))
  {
    if e.Borrow? || e.GiveBack? {
      IdleKeepsAgreement(s, e);
    } else if e.EnsureSelected? || e.SelectAnew? || e.SelectFails? {
      SelectKeepsAgreement(s, e);
    } else {
      OthersKeepAgreement(s, e);
    }
  }

  lemma IdleKeepsAgreement(s: Pool, e: Step)
    requires Enabled(s, e) && Agrees(s) && (e.Borrow? || e.GiveBack?)
    ensures Agrees(Next(s, e))
  {
  }

  lemma SelectKeepsAgreement(s: Pool, e: Step)
    requires Enabled(s, e) && Exclusive(s) && Agrees(s) && (e.EnsureSelected? || e.SelectAnew? || e.SelectFails?)
    ensures Agrees(Next(s, e))
  {
  }

  lemma OthersKeepAgreement(s: Pool, e: Step)
    requires Enabled(s, e) && Agrees(s)
    requires !e.Borrow? && !e.GiveBack? && !e.EnsureSelected? && !e.SelectAnew? && !e.SelectFails?
    ensures Agrees(Next(s, e))
  {
  }

  ghost predicate Inv(s: Pool, size: nat) { Counted(s, size) && Exclusive(s) && Agrees(s) }

  lemma StepKeepsInv(s: Pool, e: Step, size: nat)
    requires Inv(s, size) && Enabled(s, e)
    ensures Inv(Next(s, e), size)
  {
    StepKeepsCounts(s, e, size);
    StepKeepsExclusive(s, e);
    StepKeepsAgreement(s, e);
  }

  lemma {:induction false} RunKeepsInv(s: Pool, run: seq<Step>, size: nat)
    requires Inv(s, size) && Legal(s, run)
    ensures Inv(Exec(s, run), size)
    decreases |run|
  {
    if run != [] {
      StepKeepsInv(s, run[0], size);
      RunKeepsInv(Next(s, run[0]), run[1..], size);
    }
  }

  /** In every run: never more sessions than the pool's size, and no permit is lost. */
  lemma PoolNeverOverflows(size: nat, run: seq<Step>)
    requires Legal(Fresh(size), run)
    ensures var s := Exec(Fresh(size), run);
            && |s.idle| + |Users(s.callers)| <= size
            && s.permits + |s.callers| == size
            && (s.callers == map[] ==> s.permits == size)
  {
    RunKeepsInv(Fresh(size), run, size);
  }

  /** In every run: no connection is in two hands, and an idle session has selected what its record says. */
  lemma IdleSessionsAreAsRecorded(size: nat, run: seq<Step>)
    requires Legal(Fresh(size), run)
    ensures Exclusive(Exec(Fresh(size), run)) && Agrees(Exec(Fresh(size), run))
  {
    RunKeepsInv(Fresh(size), run, size);
  }

  /** The counter of borrowed sessions is right as long as no borrow was lost, and too high by each one that was. */
  lemma BorrowedCountIsExactIffNothingLost(size: nat, run: seq<Step>)
    requires Legal(Fresh(size), run)
    ensures var s := Exec(Fresh(size), run);
            (s.borrowed == |Users(s.callers)| <==> s.lost == 0) && s.borrowed >= |Users(s.callers)|
  {
    RunKeepsInv(Fresh(size), run, size);
  }

  // Commands run where they are meant to --------------------------------------------------------

  /** Caller c does nothing but list and select this mailbox. Other callers do as they like. */
  predicate StaysWith(e: Step, c: nat, mailbox: string) {
    CallerOf(e) == Some(c) ==>
      e.List? || (e.EnsureSelected? && e.mailbox == mailbox) || (e.SelectAnew? && e.mailbox == mailbox)
  }

  predicate Selected(s: Pool, c: nat, mailbox: string) { Busy(s, c) && s.callers[c].p.selected == Some(mailbox) }

  lemma {:induction false} SelectionStays(s: Pool, run: seq<Step>, c: nat, mailbox: string)
    requires Selected(s, c, mailbox) && Legal(s, run)
    requires forall i :: 0 <= i < |run| ==> StaysWith(run[i], c, mailbox)
    ensures Selected(Exec(s, run), c, mailbox)
    decreases |run|
  {
    if run != [] {
      assert StaysWith(run[0], c, mailbox);
      SelectionStays(Next(s, run[0]), run[1..], c, mailbox);
    }
  }

  /**
   * Whatever came before and whatever the other callers do: once ensure_selected(m) has succeeded, the
   * caller's connection has m selected at the server until the caller itself selects something else.
   */
  lemma CommandsRunInSelectedMailbox(size: nat, before: seq<Step>, c: nat, mailbox: string, run: seq<Step>)
    requires Legal(Fresh(size), before) && Enabled(Exec(Fresh(size), before), EnsureSelected(c, mailbox))
    requires Legal(Next(Exec(Fresh(size), before), EnsureSelected(c, mailbox)), run)
    requires forall i :: 0 <= i < |run| ==> StaysWith(run[i], c, mailbox)
    ensures var s := Exec(Next(Exec(Fresh(size), before), EnsureSelected(c, mailbox)), run);
            Busy(s, c) && s.callers[c].p.sid in s.server && s.server[s.callers[c].p.sid] == Some(mailbox)
  {
    var e := EnsureSelected(c, mailbox);
    var s := Exec(Fresh(size), before);
    SelectionStays(Next(s, e), run, c, mailbox);
    RunKeepsInv(Fresh(size), before, size);
    StepKeepsInv(s, e, size);
    RunKeepsInv(Next(s, e), run, size);
  }

  // Refreshing the mailbox list -----------------------------------------------------------------

  /** No listing made before change number v of the folders is in the cache or in any caller's copy of it. */
  ghost predicate NoneOlder(s: Pool, v: nat) {
    && s.version >= v
    && (s.cache.Some? ==> s.cache.value >= v)
    && (forall c :: c in s.callers && s.callers[c].Working? && s.callers[c].listing.Some? ==>
          s.callers[c].listing.value >= v)
  }

  lemma {:induction false} RunKeepsNoneOlder(s: Pool, run: seq<Step>, v: nat)
    requires NoneOlder(s, v) && Legal(s, run)
    ensures NoneOlder(Exec(s, run), v)
    decreases |run|
  {
    if run != [] { RunKeepsNoneOlder(Next(s, run[0]), run[1..], v); }
  }

  /** The cache holds nothing, or a listing made since. */
  predicate CacheIsSince(s: Pool, v: nat) { s.cache.Some? ==> s.cache.value >= v }

  ghost predicate OldCopyHeld(s: Pool, v: nat) {
    exists c :: c in s.callers && s.callers[c].Working? && s.callers[c].listing.Some? && s.callers[c].listing.value < v
  }

  /** From here on the cache never again holds a listing older than v. */
  ghost predicate StaysCurrent(s: Pool, v: nat) {
    forall run :: Legal(s, run) ==> CacheIsSince(Exec(s, run), v)
  }

  lemma EndingWritesBack(s: Pool, v: nat, c: nat)
    requires c in s.callers && s.callers[c].Working? && s.callers[c].listing.Some? && s.callers[c].listing.value < v
    ensures !StaysCurrent(s, v)
  {
    var run := [End(c)];
    var after := Next(s, End(c));
    assert Legal(after, []) && Exec(after, []) == after;
    assert run[1..] == [] && Legal(s, run) && Exec(s, run) == after;
    assert !CacheIsSince(Exec(s, run), v);
  }

  /**
   * Invalidating the cached mailbox list lasts, in all runs, exactly when no call in progress still
   * carries an older copy of it: such a call writes its copy back when it ends.
   */
  lemma RefreshIsCurrentIffNoOldCopyHeld(s: Pool)
    ensures StaysCurrent(Next(s, Invalidate), s.version) <==> !OldCopyHeld(s, s.version)
  {
    var t, v := Next(s, Invalidate), s.version;
    if OldCopyHeld(s, v) {
      var c :| c in s.callers && s.callers[c].Working? && s.callers[c].listing.Some? && s.callers[c].listing.value < v;
      EndingWritesBack(t, v, c);
    } else {
      forall run | Legal(t, run) ensures CacheIsSince(Exec(t, run), v) { RunKeepsNoneOlder(t, run, v); }
    }
  }

  // The fields behind the lock ------------------------------------------------------------------

  /** The state behind the lock. Its methods are the steps above; s is the whole state before the step. */
  class ActiveImapState {
    var sessionPool: seq<Pooled>
    var borrowedCount: nat
    var mailboxCache: Option<nat>

    constructor ()
      ensures forall size :: Matches(Fresh(size))
    {
      sessionPool, borrowedCount, mailboxCache := [], 0, None;
    }

    ghost predicate Matches(s: Pool)
      reads this
    {
      sessionPool == s.idle && borrowedCount == s.borrowed && mailboxCache == s.cache
    }

    /** The locked part of borrow_session: the session handed out, or none when the caller must connect. */
    method BorrowSession(ghost s: Pool, ghost c: nat) returns (got: Option<Pooled>)
      requires Matches(s) && Enabled(s, Borrow(c))
      modifies this
      ensures Matches(Next(s, Borrow(c)))
      ensures Next(s, Borrow(c)).callers[c] == match got case Some(p) => Borrowed(p) case None => Connecting
      ensures borrowedCount == old(borrowedCount) + 1 && mailboxCache == old(mailboxCache)
      ensures got.None? <==> old(sessionPool) == []
      ensures old(sessionPool) == sessionPool + match got case Some(p) => [p] case None => []
    {
      if sessionPool != [] {
        var last := |sessionPool| - 1;
        got := Some(sessionPool[last]);
        sessionPool := sessionPool[..last];
        borrowedCount := borrowedCount + 1;
        return;
      }
      borrowedCount := borrowedCount + 1;
      got := None;
    }

    method ReturnSession(session: Pooled, success: bool, ghost s: Pool, ghost c: nat)
      requires Matches(s) && Enabled(s, GiveBack(c)) && s.callers[c] == Returning(session, success)
      modifies this
      ensures Matches(Next(s, GiveBack(c)))
      ensures sessionPool == old(sessionPool) + (if success then [session] else [])
      ensures borrowedCount == SatSub(old(borrowedCount), 1) && mailboxCache == old(mailboxCache)
    {
      borrowedCount := SatSub(borrowedCount, 1);
      if success { sessionPool := sessionPool + [session]; }
    }

    /** What follows the caller's work: its copy of the list is written back unless it has none. */
    method WriteBack(listing: Option<nat>, ghost s: Pool, ghost c: nat)
      requires Matches(s) && Enabled(s, End(c)) && s.callers[c].listing == listing
      modifies this
      ensures Matches(Next(s, End(c)))
      ensures mailboxCache == (if listing == None then old(mailboxCache) else listing)
      ensures sessionPool == old(sessionPool) && borrowedCount == old(borrowedCount)
    {
      if listing.Some? { mailboxCache := listing; }
    }

    method InvalidateMailboxCache(ghost s: Pool)
      requires Matches(s)
      modifies this
      ensures Matches(Next(s, Invalidate))
      ensures mailboxCache == None && sessionPool == old(sessionPool) && borrowedCount == old(borrowedCount)
    {
      mailboxCache := None;
    }

    method Disconnect(ghost s: Pool)
      requires Matches(s)
      modifies this
      ensures Matches(Next(s, Step.Disconnect))
      ensures sessionPool == [] && mailboxCache == None && borrowedCount == old(borrowedCount)
    {
      while sessionPool != []
        invariant borrowedCount == s.borrowed
        decreases |sessionPool|
      {
        sessionPool := sessionPool[1..];
      }
      mailboxCache := None;
    }
  }

  /** The caller's copy of the selected mailbox. */
  class SessionStateShim {
    var selectedMailbox: Option<string>

    constructor (selected: Option<string>)
      ensures selectedMailbox == selected
    {
      selectedMailbox := selected;
    }

    /** Selects unless already selected; answer is what the server says to a SELECT. */
    method EnsureSelected(mailbox: string, answer: bool, ghost s: Pool, ghost c: nat) returns (ok: bool)
      requires Busy(s, c) && s.callers[c].p.selected == selectedMailbox
      modifies this
      ensures ok <==> answer || s.callers[c].p.selected == Some(mailbox)
      ensures ok ==> Next(s, Step.EnsureSelected(c, mailbox)).callers[c].p.selected == selectedMailbox == Some(mailbox)
      ensures !ok ==> forall left :: Next(s, SelectFails(c, left)).callers[c].p.selected == selectedMailbox
    {
      if selectedMailbox == Some(mailbox) { return true; }
      if !answer { return false; }
      selectedMailbox := Some(mailbox);
      ok := true;
    }
  }
}
