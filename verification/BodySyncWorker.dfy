/** The worker loop over the live table, with other workers acting between its statements. */
module BodySyncWorker {
  import opened Common
  import opened BodySyncQueue
  import opened BodySyncProtocol
  import opened BodySyncDrain

  /** A claimed row as RETURNING hands it to the worker. */
  datatype Entry = Entry(id: nat, key: Key, attempt: nat)

  function TicketOf(e: Entry): Ticket { Ticket(e.id, e.attempt) }

  function TicketsIn(entries: set<Entry>): set<Ticket> { set e | e in entries :: TicketOf(e) }

  /** s' is reached from s by these steps, none of which enqueues or resets. */
  ghost predicate Ran(c: Config, s: Sys, steps: seq<Step>, s': Sys) {
    Legal(c, s, steps) && DrainOnly(steps) && Exec(c, s, steps) == s'
  }

  lemma RanTwice(c: Config, s: Sys, a: seq<Step>, m: Sys, b: seq<Step>, s': Sys)
    requires Ran(c, s, a, m) && Ran(c, m, b, s')
    ensures Ran(c, s, a + b, s')
  {
    ExecConcat(c, s, a, b);
  }

  lemma RanOnce(c: Config, s: Sys, step: Step)
    requires Enabled(s, step) && DrainStep(step)
    ensures Ran(c, s, [step], Next(c, s, step))
  {
    var s' := Next(c, s, step);
    assert [step][1..] == [] && Exec(c, s', []) == s' && Legal(c, s', []);
  }

  /**
   * A worker: its name, whether nobody else claims under it, and the tickets its own claims were handed.
   * Names are made of the process id and an index, so that two drains of one process share them.
   */
  datatype Self = Self(name: string, alone: bool, mine: set<Ticket>)

  /** A ticket of me's name is me's own. */
  predicate Own(me: Self, t: Ticket) { me.alone || t in me.mine }

  /** The step disposes of none of me's open tickets, and does not claim in its name if that is me's alone. */
  predicate Spares(step: Step, me: Self, open: set<Ticket>) {
    match step
    case Claim(_, worker, _, _) => me.alone ==> worker != me.name
    case ReportDone(_, tickets) => tickets !! open
    case ReportRetry(_, t) => t !in open
    case Forget(tickets) => tickets !! open
    case _ => true
  }

  /** What me still owes is open: its other tickets are reported, and only open ones lock rows. */
  ghost predicate Accounted(s: Sys, me: Self, open: set<Ticket>) {
    && open <= s.book.held && open <= me.mine
    && (forall t :: t in me.mine ==> t in s.book.owner && s.book.owner[t] == me.name)
    && (forall t :: t in s.book.owner && s.book.owner[t] == me.name && Own(me, t) && t !in open ==> t in s.book.reports)
    && (forall id :: id in s.rows && s.rows[id].worker == Some(me.name) && Own(me, Ticket(id, s.rows[id].attempts)) ==>
          Ticket(id, s.rows[id].attempts) in open)
  }

  lemma OthersKeepAccounts(c: Config, s: Sys, step: Step, me: Self, open: set<Ticket>)
    requires Sound(s) && Enabled(s, step) && DrainStep(step) && Spares(step, me, open) && Accounted(s, me, open)
    ensures Accounted(Next(c, s, step), me, open)
  {
    match step
    case Claim(_, _, _, _) => OthersClaimKeepsAccounts(c, s, step, me, open);
    case ReportDone(_, _) =>
    case ReportRetry(_, _) =>
    case Forget(_) =>
    case Tick(_) =>
  }

  /** A ticket of mine was handed out before. */
  lemma MineIsOld(s: Sys, me: Self, open: set<Ticket>, t: Ticket)
    requires Sound(s) && Accounted(s, me, open) && t in me.mine
    ensures t.id in s.rows && t.attempt <= s.rows[t.id].attempts
  {
  }

  lemma OthersClaimKeepsAccounts(c: Config, s: Sys, step: Step, me: Self, open: set<Ticket>)
    requires Sound(s) && step.Claim? && (me.alone ==> step.worker != me.name) && Accounted(s, me, open)
    ensures Accounted(Next(c, s, step), me, open)
  {
    var s' := Next(c, s, step);
    var ids := ClaimSet(s.rows, step.account, s.now, step.limit, step.locked);
    forall t | t in TicketsOf(s'.rows, ids) ensures t !in me.mine && s'.book.owner[t] == step.worker {
      RowAfter(c, s, step, t.id);
      if t in me.mine { MineIsOld(s, me, open, t); }
    }
    forall id | id in s'.rows && s'.rows[id].worker == Some(me.name) && Own(me, Ticket(id, s'.rows[id].attempts))
      ensures id !in ids
    { }
  }

  lemma {:induction false} OthersRunKeepsAccounts(c: Config, s: Sys, steps: seq<Step>, me: Self, open: set<Ticket>)
    requires Sound(s) && Legal(c, s, steps) && DrainOnly(steps) && Accounted(s, me, open)
    requires forall i :: 0 <= i < |steps| ==> Spares(steps[i], me, open)
    ensures Sound(Exec(c, s, steps)) && Accounted(Exec(c, s, steps), me, open)
    decreases |steps|
  {
    if steps != [] {
      StepKeepsSound(c, s, steps[0]);
      OthersKeepAccounts(c, s, steps[0], me, open);
      OthersRunKeepsAccounts(c, Next(c, s, steps[0]), steps[1..], me, open);
    }
  }

  class Queue {
    const config: Config
    var now: int
    var nextId: nat
    var rows: Table
    var book: Book

    function State(): Sys
      reads this
    {
      Sys(now, nextId, rows, book)
    }

    constructor (config: Config, start: int)
      ensures this.config == config && State() == Initial(start)
    {
      this.config := config;
      now := start;
      nextId := 1;
      rows := map[];
      book := Initial(start).book;
    }

    /** Two equal keys in one statement make ON CONFLICT DO UPDATE fail as a whole. */
    method EnqueueItems(items: seq<Key>) returns (r: Result<nat>)
      modifies this`nextId, this`rows, this`book
      ensures DistinctKeys(items) ==> r == Ok(|items|) && State() == Next(config, old(State()), Enqueue(items))
      ensures !DistinctKeys(items) ==> r.Err? && State() == old(State())
      ensures DistinctKeys(items) && IdsBelow(old(rows), old(nextId)) ==>
        Upserted(old(rows), rows, items, now)
    {
      if !DistinctKeys(items) {
        return Err("ON CONFLICT DO UPDATE command cannot affect row a second time");
      }
      if IdsBelow(rows, nextId) { RowsEnqueued(rows, nextId, items, now); }
      var hit := Requeues(State(), items);
      var added := |Unqueued(rows, items)|;
      book := book.(revived := Revive(State(), hit), touched := book.touched + hit);
      rows := AfterEnqueue(rows, nextId, items, now);
      nextId := nextId + added;
      return Ok(|items|);
    }

    /** Rows that concurrent claims have locked are skipped: any set of them. */
    method ClaimBatch(account: string, worker: string, limit: nat) returns (claimed: set<Entry>, ghost step: Step)
      modifies this`rows, this`book
      ensures step.Claim? && step.account == account && step.worker == worker && step.limit == limit
      ensures State() == Next(config, old(State()), step)
      ensures claimed == Handed(old(rows), ClaimSet(old(rows), account, now, limit, step.locked))
    {
      var locked: set<nat> := *;
      step := Claim(account, worker, limit, locked);
      var ids := ClaimSet(rows, account, now, limit, locked);
      claimed := Handed(rows, ids);
      rows := AfterClaim(rows, ids, worker, now);
      book := book.(
        held := book.held + TicketsOf(rows, ids),
        owner := book.owner + (map t | t in TicketsOf(rows, ids) :: worker),
        firstClaim := (map i | i in ids :: now) + book.firstClaim,
        claims := book.claims + |ids|);
    }

    method MarkDone(account: string, tickets: set<Ticket>) returns (affected: nat)
      modifies this`rows, this`book
      ensures State() == Next(config, old(State()), ReportDone(account, tickets))
      ensures affected == |set i | i in IdsOf(tickets) && i in old(rows) && old(rows)[i].key.account == account|
      ensures Changed(old(rows), rows,
        (set t | t in tickets && t.id in old(rows) && old(rows)[t.id].key.account == account :: t.id),
        (r: Row) => r.(status := Done, lockedAt := None, worker := None))
    {
      var ids := IdsOf(tickets);
      affected := |set i | i in ids && i in rows && rows[i].key.account == account|;
      rows := AfterDone(rows, account, ids);
      book := book.(held := book.held - tickets, reports := book.reports + multiset(tickets));
    }

    /** schedule_retry: the delay and the verdict both follow the ticket's attempt number. */
    method ScheduleRetry(account: string, t: Ticket) returns (r: Result<Status>)
      modifies this`rows, this`book
      ensures State() == Next(config, old(State()), ReportRetry(account, t))
      ensures r.Ok? <==> t.id in old(rows) && old(rows)[t.id].key.account == account
      ensures r.Ok? ==> r.value == rows[t.id].status
      ensures r.Err? ==> rows == old(rows)
      ensures r.Ok? && t.attempt >= config.maxAttempts ==>
        Changed(old(rows), rows, {t.id}, (r: Row) => r.(status := Dead, lockedAt := None, worker := None))
      ensures r.Ok? && t.attempt < config.maxAttempts && ValidConfig(config) && t.attempt >= 1 ==>
        var due := now + Wait(config, t.attempt);
        Changed(old(rows), rows, {t.id},
          (r: Row) => r.(status := Failed, availableAt := due, lockedAt := None, worker := None))
    {
      if ValidConfig(config) && t.attempt >= 1 { WaitIsPositive(config, t.attempt); }
      var delay := RetryDelay(config.retryBase, t.attempt, config.maxRetryDelay);
      r := if t.id in rows && rows[t.id].key.account == account
           then Ok(ReportStatus(t.attempt, config.maxAttempts))
           else Err("queue item not found");
      rows := AfterRetry(rows, account, t.id, t.attempt, config.maxAttempts, delay, now);
      book := book.(held := book.held - {t}, reports := book.reports + multiset{t});
    }

    method ResetStaleProcessing(account: string) returns (affected: nat)
      modifies this`rows, this`book
      ensures State() == Next(config, old(State()), ResetStale(account))
      ensures affected == |StaleRows(config, old(State()), account)|
      ensures var at := now;
              Changed(old(rows), rows,
                (set i | i in old(rows) && old(rows)[i].key.account == account && old(rows)[i].status == Processing
                         && old(rows)[i].lockedAt.Some? && at - old(rows)[i].lockedAt.value > Max(config.staleAfter, 1)),
                (r: Row) => r.(status := Failed, availableAt := at, lockedAt := None, worker := None))
    {
      var hit := StaleRows(config, State(), account);
      affected := |hit|;
      book := book.(revived := Revive(State(), hit), touched := book.touched + hit);
      rows := AfterReset(rows, account, config.staleAfter, now);
    }

    /** Between two statements of me, others may do anything a drain may do. */
    method OthersAct(me: Self, open: set<Ticket>) returns (ghost steps: seq<Step>)
      requires Sound(State()) && Accounted(State(), me, open)
      modifies this`now, this`rows, this`book
      ensures Ran(config, old(State()), steps, State())
      ensures Sound(State()) && Accounted(State(), me, open)
    {
      var plan: seq<Step> := *;
      if Legal(config, State(), plan) && DrainOnly(plan) && (forall i :: 0 <= i < |plan| ==> Spares(plan[i], me, open)) {
        OthersRunKeepsAccounts(config, State(), plan, me, open);
        var s := State();
        DrainClaimsBounded(config, s, plan);
        var s' := Exec(config, s, plan);
        ExecKeepsNextId(config, s, plan);
        now, rows, book := s'.now, s'.rows, s'.book;
        steps := plan;
      } else {
        steps := [];
      }
    }
  }

  /** Every item has a row; those not done are pending and due, with their attempts kept, and no other row has changed. */
  ghost predicate Upserted(t: Table, u: Table, items: seq<Key>, now: int) {
    && (forall k :: k in items ==> k in KeysOf(u))
    && (forall i :: i in t ==> i in u && (t[i].status == Done || t[i].key !in items ==> u[i] == t[i]))
    && (forall i :: i in t && t[i].status != Done && t[i].key in items ==>
          u[i] == t[i].(status := Pending, availableAt := now, lockedAt := None, worker := None))
    && (forall i :: i in u && i !in t ==> u[i].key in items && u[i] == Row(u[i].key, Pending, 0, now, None, None))
  }

  lemma RowsEnqueued(t: Table, nextId: nat, items: seq<Key>, now: int)
    requires IdsBelow(t, nextId)
    ensures var u := AfterEnqueue(t, nextId, items, now);
            Upserted(t, u, items, now)
  {
    EnqueueCoversItems(t, nextId, items, now);
    forall i | i in AfterEnqueue(t, nextId, items, now) || i in t
      ensures var u := AfterEnqueue(t, nextId, items, now);
              i in u && (i !in t ==> u[i].key in items && u[i] == Row(u[i].key, Pending, 0, now, None, None))
    {
      EnqueuedRow(t, nextId, items, now, i);
    }
  }

  /** The entries name rows that are now locked for the worker, one attempt further, which is the number handed out. */
  ghost predicate ClaimedRows(t: Table, u: Table, claimed: set<Entry>, worker: string, now: int) {
    && (forall e :: e in claimed ==> e.id in t && e == Entry(e.id, t[e.id].key, t[e.id].attempts + 1))
    && Changed(t, u, (set e | e in claimed :: e.id),
         (r: Row) => r.(status := Processing, attempts := r.attempts + 1, lockedAt := Some(now), worker := Some(worker)))
  }

  /** What a claim hands out and does to the rows. */
  lemma ClaimLocksRows(c: Config, s: Sys, step: Step)
    requires step.Claim?
    ensures var claimed := Handed(s.rows, ClaimSet(s.rows, step.account, s.now, step.limit, step.locked));
            ClaimedRows(s.rows, Next(c, s, step).rows, claimed, step.worker, s.now)
  {
    HandedRows(s.rows, ClaimSet(s.rows, step.account, s.now, step.limit, step.locked), step.worker, s.now);
  }

  lemma HandedRows(t: Table, ids: set<nat>, worker: string, now: int)
    requires ids <= t.Keys
    ensures ClaimedRows(t, AfterClaim(t, ids, worker, now), Handed(t, ids), worker, now)
  {
    HandedIds(t, ids);
  }

  lemma HandedIds(t: Table, ids: set<nat>)
    requires ids <= t.Keys
    ensures ids == set e | e in Handed(t, ids) :: e.id
  {
    forall i | i in ids ensures exists e :: e in Handed(t, ids) && e.id == i {
      assert Entry(i, t[i].key, t[i].attempts + 1) in Handed(t, ids);
    }
  }

  lemma WaitIsPositive(c: Config, k: nat)
    requires ValidConfig(c) && k >= 1
    ensures RetryDelay(c.retryBase, k, c.maxRetryDelay) == Wait(c, k) >= 1
  {
    BackoffIsWait(c, k);
    PositiveProduct(c.retryBase, Pow2(Min(k - 1, 16)));
  }

  lemma {:induction false} ExecKeepsNextId(c: Config, s: Sys, steps: seq<Step>)
    requires DrainOnly(steps)
    ensures Exec(c, s, steps).nextId == s.nextId
    decreases |steps|
  {
    if steps != [] {
      ExecKeepsNextId(c, Next(c, s, steps[0]), steps[1..]);
    }
  }

  // Which entries a fetched batch finishes ----------------------------------------------------

  /** The Message-IDs of the entries whose UIDs the fetch returned. */
  function SyncedIds(entries: set<Entry>, fetched: set<int>): set<string> {
    set e | e in entries && e.key.uid in fetched :: e.key.messageId
  }

  /** Entries are marked done by Message-ID, not by UID. */
  function DoneEntries(entries: set<Entry>, fetched: set<int>): set<Entry> {
    set e | e in entries && e.key.messageId in SyncedIds(entries, fetched)
  }

  ghost predicate MarksExactlyFetched(entries: set<Entry>) {
    forall fetched: set<int> :: DoneEntries(entries, fetched) == set e | e in entries && e.key.uid in fetched
  }

  /** The entries marked done are those fetched, for every answer, exactly when no Message-ID of the batch has two UIDs. */
  lemma MarksExactlyFetchedIff(entries: set<Entry>)
    ensures MarksExactlyFetched(entries)
       <==> forall d, e :: d in entries && e in entries && d.key.messageId == e.key.messageId ==> d.key.uid == e.key.uid
  {
    if MarksExactlyFetched(entries) {
      forall d, e | d in entries && e in entries && d.key.messageId == e.key.messageId ensures d.key.uid == e.key.uid {
        assert e.key.messageId in SyncedIds(entries, {e.key.uid});
        assert d in DoneEntries(entries, {e.key.uid});
      }
    }
  }

  // The worker --------------------------------------------------------------------------------

  /** Reporting open tickets pays them off. */
  lemma ReportPaysOff(c: Config, s: Sys, step: Step, me: Self, open: set<Ticket>, paid: set<Ticket>)
    requires Sound(s) && Accounted(s, me, open) && paid <= open && Enabled(s, step)
    requires (step.ReportDone? && step.tickets == paid) || (step.ReportRetry? && {step.ticket} == paid)
    ensures Sound(Next(c, s, step)) && Accounted(Next(c, s, step), me, open - paid)
  {
    StepKeepsSound(c, s, step);
    var s' := Next(c, s, step);
    forall id | id in s'.rows && s'.rows[id].worker == Some(me.name) && Own(me, Ticket(id, s'.rows[id].attempts))
      ensures Ticket(id, s'.rows[id].attempts) in open - paid
    {
      RowAfter(c, s, step, id);
      assert step.ReportDone? && Ticket(id, s.rows[id].attempts) in paid ==> id in IdsOf(paid);
    }
  }

  /** A claim opens exactly the tickets it returns. */
  lemma ClaimOpens(c: Config, s: Sys, step: Step, me: Self, open: set<Ticket>)
    requires Sound(s) && Accounted(s, me, open) && step.Claim? && step.worker == me.name
    ensures var s' := Next(c, s, step);
            var ids := ClaimSet(s.rows, step.account, s.now, step.limit, step.locked);
            Sound(s') && Accounted(s', me.(mine := me.mine + TicketsOf(s'.rows, ids)), open + TicketsOf(s'.rows, ids))
  {
    StepKeepsSound(c, s, step);
    ClaimOwes(c, s, step, me, open);
    ClaimOwns(c, s, step, me, open);
  }

  /** Rows locked in me's name by its own tickets are those open before and those just claimed. */
  lemma ClaimOwes(c: Config, s: Sys, step: Step, me: Self, open: set<Ticket>)
    requires Sound(s) && Accounted(s, me, open) && step.Claim? && step.worker == me.name
    ensures var s' := Next(c, s, step);
            var added := TicketsOf(s'.rows, ClaimSet(s.rows, step.account, s.now, step.limit, step.locked));
            forall id :: id in s'.rows && s'.rows[id].worker == Some(me.name) &&
                         Own(me.(mine := me.mine + added), Ticket(id, s'.rows[id].attempts)) ==>
              Ticket(id, s'.rows[id].attempts) in open + added
  {
    var s' := Next(c, s, step);
    var added := TicketsOf(s'.rows, ClaimSet(s.rows, step.account, s.now, step.limit, step.locked));
    forall id | id in s'.rows && s'.rows[id].worker == Some(me.name) &&
                Own(me.(mine := me.mine + added), Ticket(id, s'.rows[id].attempts))
      ensures Ticket(id, s'.rows[id].attempts) in open + added
    {
      RowAfter(c, s, step, id);
    }
  }

  /** A claim hands its worker the tickets it opens, and leaves the others with their owners. */
  lemma ClaimHands(c: Config, s: Sys, step: Step, t: Ticket)
    requires IdsBelow(s.rows, s.nextId) && step.Claim?
    ensures var s' := Next(c, s, step);
            var added := TicketsOf(s'.rows, ClaimSet(s.rows, step.account, s.now, step.limit, step.locked));
            && s'.book.held == s.book.held + added && s'.book.reports == s.book.reports
            && (t in added ==> t in s'.book.owner && s'.book.owner[t] == step.worker)
            && (t !in added ==> (t in s'.book.owner <==> t in s.book.owner))
            && (t !in added && t in s.book.owner ==> s'.book.owner[t] == s.book.owner[t])
  {
  }

  /** The tickets just opened are me's, and me's other tickets are as before. */
  lemma ClaimOwns(c: Config, s: Sys, step: Step, me: Self, open: set<Ticket>)
    requires Sound(s) && Accounted(s, me, open) && step.Claim? && step.worker == me.name
    ensures var s' := Next(c, s, step);
            var added := TicketsOf(s'.rows, ClaimSet(s.rows, step.account, s.now, step.limit, step.locked));
            var me' := me.(mine := me.mine + added);
            && open + added <= s'.book.held && open + added <= me'.mine
            && (forall t :: t in me'.mine ==> t in s'.book.owner && s'.book.owner[t] == me.name)
            && (forall t :: t in s'.book.owner && s'.book.owner[t] == me.name && Own(me', t) && t !in open + added ==>
                  t in s'.book.reports)
  {
    var s' := Next(c, s, step);
    var added := TicketsOf(s'.rows, ClaimSet(s.rows, step.account, s.now, step.limit, step.locked));
    ClaimHands(c, s, step, Ticket(0, 0));
    forall t | t in me.mine + added ensures t in s'.book.owner && s'.book.owner[t] == me.name {
      ClaimHands(c, s, step, t);
    }
    forall t | t in s'.book.owner && s'.book.owner[t] == me.name && Own(me.(mine := me.mine + added), t) && t !in open + added
      ensures t in s'.book.reports
    {
      ClaimHands(c, s, step, t);
    }
  }

  /** Every entry still names its row, in the worker's account. */
  ghost predicate Matches(s: Sys, account: string, entries: set<Entry>) {
    forall e :: e in entries ==> e.id in s.rows && s.rows[e.id].key == e.key && e.key.account == account
  }

  lemma {:induction false} RunKeepsMatches(c: Config, s: Sys, steps: seq<Step>, account: string, entries: set<Entry>)
    requires Sound(s) && Legal(c, s, steps) && Matches(s, account, entries)
    ensures Matches(Exec(c, s, steps), account, entries)
    decreases |steps|
  {
    if steps != [] {
      forall e | e in entries ensures e.id in Next(c, s, steps[0]).rows && Next(c, s, steps[0]).rows[e.id].key == e.key {
        RowAfter(c, s, steps[0], e.id);
      }
      StepKeepsSound(c, s, steps[0]);
      RunKeepsMatches(c, Next(c, s, steps[0]), steps[1..], account, entries);
    }
  }

  /** me's books balance: what it still owes is open, and it owes it on rows of its account. */
  ghost predicate Ledger(s: Sys, account: string, me: Self, todo: set<Entry>) {
    Sound(s) && Accounted(s, me, TicketsIn(todo)) && Matches(s, account, todo)
  }

  /** Others act, then me reports the entries of paid in one statement. */
  lemma LedgerAfterReport(c: Config, s: Sys, step: Step, account: string, me: Self, todo: set<Entry>, paid: set<Entry>)
    requires Ledger(s, account, me, todo) && paid <= todo && paid != {}
    requires step == ReportDone(account, TicketsIn(paid)) || (step.ReportRetry? && step.account == account && {step.ticket} == TicketsIn(paid))
    ensures Enabled(s, step) && Ran(c, s, [step], Next(c, s, step))
    ensures Ledger(Next(c, s, step), account, me, todo - paid)
  {
    RanOnce(c, s, step);
    ReportPaysOff(c, s, step, me, TicketsIn(todo), TicketsIn(paid));
    RunKeepsMatches(c, s, [step], account, todo);
    assert TicketsIn(todo) - TicketsIn(paid) == TicketsIn(todo - paid);
  }

  method OthersActThenRetry(q: Queue, account: string, me: Self, todo: set<Entry>, e: Entry)
    returns (ghost trace: seq<Step>)
    requires Ledger(q.State(), account, me, todo) && e in todo
    modifies q`now, q`rows, q`book
    ensures Ran(q.config, old(q.State()), trace, q.State())
    ensures Ledger(q.State(), account, me, todo - {e})
    ensures ReportRetry(account, TicketOf(e)) in trace
  {
    ghost var steps := q.OthersAct(me, TicketsIn(todo));
    RunKeepsMatches(q.config, old(q.State()), steps, account, todo);
    ghost var s := q.State();
    ghost var report := ReportRetry(account, TicketOf(e));
    var status := q.ScheduleRetry(account, TicketOf(e));
    LedgerAfterReport(q.config, s, report, account, me, todo, {e});
    RanTwice(q.config, old(q.State()), steps, s, [report], q.State());
    trace := steps + [report];
  }

  // Counting what is done -----------------------------------------------------------------------

  /** No row is handed out twice in one claim. */
  ghost predicate OnePerRow(entries: set<Entry>) { forall d, e :: d in entries && e in entries && d.id == e.id ==> d == e }

  lemma TicketsPlus(entries: set<Entry>, e: Entry)
    ensures TicketsIn(entries + {e}) == TicketsIn(entries) + {TicketOf(e)}
  {
  }

  lemma IdsPlus(tickets: set<Ticket>, t: Ticket)
    ensures IdsOf(tickets + {t}) == IdsOf(tickets) + {t.id}
  {
  }

  lemma IdIsNew(rest: set<Entry>, e: Entry)
    requires forall d :: d in rest ==> d.id != e.id
    ensures e.id !in IdsOf(TicketsIn(rest)) && TicketOf(e) !in TicketsIn(rest)
  {
  }

  lemma AsManyPlus(rest: set<Entry>, e: Entry)
    requires |IdsOf(TicketsIn(rest))| == |TicketsIn(rest)| == |rest| && forall d :: d in rest ==> d.id != e.id
    ensures |IdsOf(TicketsIn(rest + {e}))| == |TicketsIn(rest + {e})| == |rest + {e}|
  {
    IdIsNew(rest, e);
    TicketsPlus(rest, e);
    IdsPlus(TicketsIn(rest), TicketOf(e));
    assert e !in rest;
  }

  lemma OnePerRowBut(entries: set<Entry>, e: Entry)
    requires OnePerRow(entries) && e in entries
    ensures OnePerRow(entries - {e}) && forall d :: d in entries - {e} ==> d.id != e.id
  {
  }

  lemma {:induction false} AsManyIds(entries: set<Entry>)
    requires OnePerRow(entries)
    ensures |IdsOf(TicketsIn(entries))| == |TicketsIn(entries)| == |entries|
  {
    if entries == {} {
      assert TicketsIn(entries) == {} && IdsOf(TicketsIn(entries)) == {};
    } else {
      var e :| e in entries;
      OnePerRowBut(entries, e);
      AsManyIds(entries - {e});
      AsManyPlus(entries - {e}, e);
      assert entries - {e} + {e} == entries;
    }
  }

  /** The ticket was handed to me and one of the trace's reports marks its row done. */
  ghost predicate DoneFor(s: Sys, me: string, trace: seq<Step>, t: Ticket) {
    && t in s.book.owner && s.book.owner[t] == me && t in s.book.reports
    && exists i :: MarkedAt(s, trace, t, i)
  }

  /** Step i marks the ticket's row done, and done it is unless it was reported for another try since. */
  ghost predicate MarkedAt(s: Sys, trace: seq<Step>, t: Ticket, i: nat) {
    && i < |trace| && trace[i].ReportDone? && t in trace[i].tickets
    && (NoRetry(trace[i + 1..], t.id) ==> DoneAt(s, t.id))
  }

  ghost predicate NoRetry(steps: seq<Step>, id: nat) {
    forall i :: 0 <= i < |steps| ==> !(steps[i].ReportRetry? && steps[i].ticket.id == id)
  }

  lemma NoRetrySplits(a: seq<Step>, b: seq<Step>, id: nat)
    requires NoRetry(a + b, id)
    ensures NoRetry(a, id) && NoRetry(b, id)
  {
    forall i | 0 <= i < |a| ensures !(a[i].ReportRetry? && a[i].ticket.id == id) { assert (a + b)[i] == a[i]; }
    forall i | 0 <= i < |b| ensures !(b[i].ReportRetry? && b[i].ticket.id == id) { assert (a + b)[|a| + i] == b[i]; }
  }

  lemma StepKeepsDone(c: Config, s: Sys, step: Step, t: Ticket)
    requires Sound(s) && Enabled(s, step) && t in s.book.owner && t in s.book.reports
    ensures var s' := Next(c, s, step);
            t in s'.book.owner && s'.book.owner[t] == s.book.owner[t] && t in s'.book.reports
  {
  }

  lemma {:induction false} RunKeepsDone(c: Config, s: Sys, steps: seq<Step>, t: Ticket)
    requires Sound(s) && Legal(c, s, steps) && t in s.book.owner && t in s.book.reports
    ensures var s' := Exec(c, s, steps);
            t in s'.book.owner && s'.book.owner[t] == s.book.owner[t] && t in s'.book.reports
    decreases |steps|
  {
    if steps != [] {
      StepKeepsDone(c, s, steps[0], t);
      StepKeepsSound(c, s, steps[0]);
      RunKeepsDone(c, Next(c, s, steps[0]), steps[1..], t);
    }
  }

  ghost predicate AllDone(s: Sys, me: string, trace: seq<Step>, finished: set<Ticket>) {
    forall t :: t in finished ==> DoneFor(s, me, trace, t)
  }

  /** What was done stays done, and a longer trace still shows it. */
  lemma DoneAfter(c: Config, s: Sys, me: string, trace: seq<Step>, finished: set<Ticket>, more: seq<Step>, s': Sys)
    requires Sound(s) && AllDone(s, me, trace, finished) && Ran(c, s, more, s')
    ensures AllDone(s', me, trace + more, finished)
  {
    forall t | t in finished ensures DoneFor(s', me, trace + more, t) {
      assert DoneFor(s, me, trace, t);
      RunKeepsDone(c, s, more, t);
      var i: nat :| MarkedAt(s, trace, t, i);
      StillMarked(c, s, trace, t, i, more);
    }
  }

  lemma DoneBehind(s: Sys, me: string, before: seq<Step>, trace: seq<Step>, finished: set<Ticket>)
    requires AllDone(s, me, trace, finished)
    ensures AllDone(s, me, before + trace, finished)
  {
    forall t | t in finished ensures DoneFor(s, me, before + trace, t) {
      assert DoneFor(s, me, trace, t);
      var i: nat :| MarkedAt(s, trace, t, i);
      assert (before + trace)[|before| + i] == trace[i];
      assert (before + trace)[|before| + i + 1..] == trace[i + 1..];
      assert MarkedAt(s, before + trace, t, |before| + i);
    }
  }

  lemma StillMarked(c: Config, s: Sys, trace: seq<Step>, t: Ticket, i: nat, more: seq<Step>)
    requires Sound(s) && Legal(c, s, more) && MarkedAt(s, trace, t, i)
    ensures MarkedAt(Exec(c, s, more), trace + more, t, i)
  {
    assert (trace + more)[i + 1..] == trace[i + 1..] + more;
    if NoRetry((trace + more)[i + 1..], t.id) {
      NoRetrySplits(trace[i + 1..], more, t.id);
      DoneUnlessRetried(c, s, more, t.id);
    }
  }

  /** A report of entries counts their rows. */
  lemma ReportCounts(s: Sys, account: string, me: Self, todo: set<Entry>, finished: set<Entry>)
    requires Ledger(s, account, me, todo) && finished <= todo && OnePerRow(finished)
    ensures |set i | i in IdsOf(TicketsIn(finished)) && i in s.rows && s.rows[i].key.account == account| == |finished|
  {
    var ids := IdsOf(TicketsIn(finished));
    AsManyIds(finished);
    forall i | i in ids ensures i in s.rows && s.rows[i].key.account == account {
      var e :| e in finished && e.id == i;
    }
    assert (set i | i in ids && i in s.rows && s.rows[i].key.account == account) == ids;
  }

  /** Their tickets are done for me, and their rows are done. */
  lemma ReportMarks(c: Config, s: Sys, account: string, me: Self, todo: set<Entry>, finished: set<Entry>)
    requires Ledger(s, account, me, todo) && finished <= todo
    ensures var report := ReportDone(account, TicketsIn(finished));
            AllDone(Next(c, s, report), me.name, [report], TicketsIn(finished))
  {
    var report := ReportDone(account, TicketsIn(finished));
    forall t | t in TicketsIn(finished) ensures DoneFor(Next(c, s, report), me.name, [report], t) {
      assert t in TicketsIn(todo);
      var e :| e in finished && TicketOf(e) == t;
      RowMarked(c, s, report, t.id);
      assert MarkedAt(Next(c, s, report), [report], t, 0);
    }
  }

  lemma RowMarked(c: Config, s: Sys, report: Step, id: nat)
    requires report.ReportDone? && id in IdsOf(report.tickets) && id in s.rows && s.rows[id].key.account == report.account
    ensures DoneAt(Next(c, s, report), id)
  {
  }

  method OthersActThenMarkDone(q: Queue, account: string, me: Self, todo: set<Entry>, finished: set<Entry>)
    returns (done: nat, ghost trace: seq<Step>)
    requires Ledger(q.State(), account, me, todo) && finished <= todo && finished != {} && OnePerRow(finished)
    modifies q`now, q`rows, q`book
    ensures Ran(q.config, old(q.State()), trace, q.State())
    ensures Ledger(q.State(), account, me, todo - finished)
    ensures ReportDone(account, TicketsIn(finished)) in trace
    ensures done == |finished| && AllDone(q.State(), me.name, trace, TicketsIn(finished))
  {
    ghost var steps := q.OthersAct(me, TicketsIn(todo));
    RunKeepsMatches(q.config, old(q.State()), steps, account, todo);
    ghost var s := q.State();
    ghost var report := ReportDone(account, TicketsIn(finished));
    ReportCounts(s, account, me, todo, finished);
    ReportMarks(q.config, s, account, me, todo, finished);
    done := q.MarkDone(account, TicketsIn(finished));
    DoneBehind(q.State(), me.name, steps, [report], TicketsIn(finished));
    LedgerAfterReport(q.config, s, report, account, me, todo, finished);
    RanTwice(q.config, old(q.State()), steps, s, [report], q.State());
    trace := steps + [report];
  }

  /** Every one of these entries was reported for another try. */
  ghost predicate AllRetried(trace: seq<Step>, account: string, entries: set<Entry>) {
    forall e :: e in entries ==> ReportRetry(account, TicketOf(e)) in trace
  }

  lemma OneMoreRetried(trace: seq<Step>, account: string, entries: set<Entry>, more: seq<Step>, e: Entry)
    requires AllRetried(trace, account, entries) && ReportRetry(account, TicketOf(e)) in more
    ensures AllRetried(trace + more, account, entries + {e})
  {
  }

  /** Every entry of failed goes back to the queue, one statement each. */
  method RetryAll(q: Queue, account: string, me: Self, todo: set<Entry>, failed: set<Entry>)
    returns (ghost trace: seq<Step>)
    requires Ledger(q.State(), account, me, todo) && failed <= todo
    modifies q`now, q`rows, q`book
    ensures Ran(q.config, old(q.State()), trace, q.State())
    ensures Ledger(q.State(), account, me, todo - failed)
    ensures AllRetried(trace, account, failed)
  {
    var left := failed;
    trace := [];
    assert todo - (failed - left) == todo;
    while left != {}
      invariant left <= failed
      invariant AllRetried(trace, account, failed - left)
      invariant Ran(q.config, old(q.State()), trace, q.State())
      invariant Ledger(q.State(), account, me, todo - (failed - left))
    {
      var e :| e in left;
      ghost var s := q.State();
      ghost var more := OthersActThenRetry(q, account, me, todo - (failed - left), e);
      RanTwice(q.config, old(q.State()), trace, s, more, q.State());
      OneMoreRetried(trace, account, failed - left, more, e);
      OneLess(todo, failed, left, e);
      trace, left := trace + more, left - {e};
    }
    assert failed - left == failed;
  }

  lemma OneLess(todo: set<Entry>, failed: set<Entry>, left: set<Entry>, e: Entry)
    requires e in left && left <= failed
    ensures failed - (left - {e}) == (failed - left) + {e}
    ensures todo - (failed - (left - {e})) == todo - (failed - left) - {e}
  {
  }

  /** What the trace says of a batch: the entries of fetched Message-IDs are done in one report, the others retried. */
  ghost predicate Settled(trace: seq<Step>, account: string, batch: set<Entry>, fetched: Result<set<int>>) {
    match fetched
    case Ok(uids) =>
      var finished := DoneEntries(batch, uids);
      (finished != {} ==> ReportDone(account, TicketsIn(finished)) in trace) && AllRetried(trace, account, batch - finished)
    case Err(_) => AllRetried(trace, account, batch)
  }

  /** The entries whose rows the batch marks done. */
  function FinishedOf(batch: set<Entry>, fetched: Result<set<int>>): set<Entry> {
    match fetched case Ok(uids) => DoneEntries(batch, uids) case Err(_) => {}
  }

  /** One report for the entries of fetched Message-IDs, none if there are none. */
  method MarkFinished(q: Queue, account: string, me: Self, todo: set<Entry>, finished: set<Entry>)
    returns (done: nat, ghost trace: seq<Step>)
    requires Ledger(q.State(), account, me, todo) && finished <= todo && OnePerRow(finished)
    modifies q`now, q`rows, q`book
    ensures Ran(q.config, old(q.State()), trace, q.State())
    ensures Ledger(q.State(), account, me, todo - finished)
    ensures finished != {} ==> ReportDone(account, TicketsIn(finished)) in trace
    ensures done == |finished| && AllDone(q.State(), me.name, trace, TicketsIn(finished))
  {
    done, trace := 0, [];
    if finished != {} {
      done, trace := OthersActThenMarkDone(q, account, me, todo, finished);
    } else {
      assert todo - finished == todo && TicketsIn(finished) == {};
    }
  }

  /** The fetch may return any UIDs, or fail. */
  method ProcessClaimedFolderBatch(q: Queue, account: string, me: Self, folder: string, todo: set<Entry>, batch: set<Entry>)
    returns (done: nat, fetched: Result<set<int>>, ghost trace: seq<Step>)
    requires Ledger(q.State(), account, me, todo) && batch <= todo && OnePerRow(batch)
    requires forall e :: e in batch ==> e.key.folder == folder
    modifies q`now, q`rows, q`book
    ensures Ran(q.config, old(q.State()), trace, q.State())
    ensures Ledger(q.State(), account, me, todo - batch)
    ensures Settled(trace, account, batch, fetched)
    ensures done == |FinishedOf(batch, fetched)|
    ensures AllDone(q.State(), me.name, trace, TicketsIn(FinishedOf(batch, fetched)))
  {
    done, trace, fetched := 0, [], *;
    assert TicketsIn({}) == {};
    if batch == {} {
      assert todo - batch == todo && FinishedOf(batch, fetched) == {};
      return;
    }
    match fetched
    case Ok(uids) =>
      done, trace := MarkAndRetry(q, account, me, todo, batch, DoneEntries(batch, uids));
    case Err(_) =>
      trace := RetryAll(q, account, me, todo, batch);
  }

  /** These entries of the batch are done in one report, the others retried. */
  method MarkAndRetry(q: Queue, account: string, me: Self, todo: set<Entry>, batch: set<Entry>, finished: set<Entry>)
    returns (done: nat, ghost trace: seq<Step>)
    requires Ledger(q.State(), account, me, todo) && finished <= batch <= todo && OnePerRow(batch)
    modifies q`now, q`rows, q`book
    ensures Ran(q.config, old(q.State()), trace, q.State())
    ensures Ledger(q.State(), account, me, todo - batch)
    ensures finished != {} ==> ReportDone(account, TicketsIn(finished)) in trace
    ensures AllRetried(trace, account, batch - finished)
    ensures done == |finished| && AllDone(q.State(), me.name, trace, TicketsIn(finished))
  {
    ghost var reported, more;
    done, reported := MarkFinished(q, account, me, todo, finished);
    ghost var s := q.State();
    more := RetryAll(q, account, me, todo - finished, batch - finished);
    assert todo - finished - (batch - finished) == todo - batch;
    RanTwice(q.config, old(q.State()), reported, s, more, q.State());
    DoneAfter(q.config, s, me.name, reported, TicketsIn(finished), more, q.State());
    trace := reported + more;
  }

  /** The finished tickets of several batches together. */
  lemma MoreFinished(c: Config, s: Sys, me: string, trace: seq<Step>, a: set<Ticket>, more: seq<Step>, s': Sys, b: set<Ticket>)
    requires Sound(s) && AllDone(s, me, trace, a) && Ran(c, s, more, s') && AllDone(s', me, more, b)
    ensures AllDone(s', me, trace + more, a + b)
  {
    DoneAfter(c, s, me, trace, a, more, s');
    DoneBehind(s', me, trace, more, b);
  }

  function InFolder(entries: set<Entry>, folder: string): set<Entry> { set e | e in entries && e.key.folder == folder }

  /** One of the folders the claimed entries belong to. */
  method ProcessNextFolder(q: Queue, account: string, me: Self, todo: set<Entry>)
    returns (n: nat, rest: set<Entry>, ghost newly: set<Ticket>, ghost trace: seq<Step>)
    requires Ledger(q.State(), account, me, todo) && OnePerRow(todo) && todo != {}
    modifies q`now, q`rows, q`book
    ensures rest < todo && Ran(q.config, old(q.State()), trace, q.State()) && Ledger(q.State(), account, me, rest)
    ensures n == |newly| && newly <= TicketsIn(todo - rest) && AllDone(q.State(), me.name, trace, newly)
    ensures exists folder :: todo - rest == InFolder(todo, folder)
  {
    var first :| first in todo;
    var batch := InFolder(todo, first.key.folder);
    var fetched;
    n, fetched, trace := ProcessClaimedFolderBatch(q, account, me, first.key.folder, todo, batch);
    newly := TicketsIn(FinishedOf(batch, fetched));
    AsManyIds(FinishedOf(batch, fetched));
    rest := todo - batch;
    assert todo - rest == batch;
  }

  /** Entries of different rows have different tickets. */
  lemma OtherRowsOtherTickets(all: set<Entry>, todo: set<Entry>, rest: set<Entry>, a: set<Ticket>, b: set<Ticket>)
    requires OnePerRow(all) && rest <= todo <= all
    requires a <= TicketsIn(all - todo) && b <= TicketsIn(todo - rest)
    ensures a !! b && a + b <= TicketsIn(all - rest)
  {
    assert all - rest == (all - todo) + (todo - rest);
  }

  /** The claimed entries, folder by folder. */
  method ProcessClaimed(q: Queue, account: string, me: Self, claimed: set<Entry>)
    returns (total: nat, ghost finished: set<Ticket>, ghost trace: seq<Step>)
    requires Ledger(q.State(), account, me, claimed) && OnePerRow(claimed)
    modifies q`now, q`rows, q`book
    ensures Ran(q.config, old(q.State()), trace, q.State())
    ensures Ledger(q.State(), account, me, {})
    ensures total == |finished| && finished <= TicketsIn(claimed) && AllDone(q.State(), me.name, trace, finished)
  {
    total, finished, trace := 0, {}, [];
    var todo := claimed;
    while todo != {}
      invariant todo <= claimed
      invariant Ran(q.config, old(q.State()), trace, q.State())
      invariant Ledger(q.State(), account, me, todo)
      invariant total == |finished| && finished <= TicketsIn(claimed - todo) && AllDone(q.State(), me.name, trace, finished)
    {
      ghost var s := q.State();
      var n, rest, newly, more := ProcessNextFolder(q, account, me, todo);
      RanTwice(q.config, old(q.State()), trace, s, more, q.State());
      MoreFinished(q.config, s, me.name, trace, finished, more, q.State(), newly);
      OtherRowsOtherTickets(claimed, todo, rest, finished, newly);
      trace, finished := trace + more, finished + newly;
      todo, total := rest, total + n;
    }
    assert claimed - todo == claimed;
  }

  function Handed(t: Table, ids: set<nat>): set<Entry>
    requires ids <= t.Keys
  {
    set i | i in ids :: Entry(i, t[i].key, t[i].attempts + 1)
  }

  /** A claim that hands out something uses up potential. */
  lemma ClaimLowersPotential(c: Config, s: Sys, step: Step)
    requires Sound(s) && step.Claim?
    requires ClaimSet(s.rows, step.account, s.now, step.limit, step.locked) != {}
    ensures Potential(c, Next(c, s, step)) < Potential(c, s)
  {
    StepUsesUp(c, s, step);
  }

  /** The entries a claim returns carry the tickets it opens. */
  lemma HandedTickets(t: Table, ids: set<nat>, worker: string, now: int)
    requires ids <= t.Keys
    ensures TicketsIn(Handed(t, ids)) == TicketsOf(AfterClaim(t, ids, worker, now), ids)
  {
    forall i | i in ids ensures Ticket(i, t[i].attempts + 1) in TicketsIn(Handed(t, ids)) {
      assert Entry(i, t[i].key, t[i].attempts + 1) in Handed(t, ids);
    }
  }

  lemma HandedMatches(c: Config, s: Sys, step: Step)
    requires IdsBelow(s.rows, s.nextId) && step.Claim?
    ensures Matches(Next(c, s, step), step.account, Handed(s.rows, ClaimSet(s.rows, step.account, s.now, step.limit, step.locked)))
  {
    var ids := ClaimSet(s.rows, step.account, s.now, step.limit, step.locked);
    forall e | e in Handed(s.rows, ids)
      ensures e.id in Next(c, s, step).rows && Next(c, s, step).rows[e.id].key == e.key && e.key.account == step.account
    {
      RowAfter(c, s, step, e.id);
    }
  }

  /** me owes what a claim hands it. */
  lemma LedgerAfterClaim(c: Config, s: Sys, step: Step, account: string, me: Self)
    requires Ledger(s, account, me, {}) && step.Claim? && step.account == account && step.worker == me.name
    ensures var claimed := Handed(s.rows, ClaimSet(s.rows, account, s.now, step.limit, step.locked));
            Ledger(Next(c, s, step), account, Plus(me, claimed), claimed)
  {
    var ids := ClaimSet(s.rows, account, s.now, step.limit, step.locked);
    var added := TicketsOf(Next(c, s, step).rows, ids);
    assert TicketsIn({}) == {};
    ClaimOpens(c, s, step, me, {});
    assert {} + added == added;
    HandedTickets(s.rows, ids, me.name, s.now);
    HandedMatches(c, s, step);
  }

  /** The worker with the tickets of these entries among its own. */
  function Plus(me: Self, claimed: set<Entry>): Self { me.(mine := me.mine + TicketsIn(claimed)) }

  /** Every due row of the account is locked by another claim. */
  ghost predicate AllDueLocked(s: Sys, account: string, locked: set<nat>) {
    forall id :: id in s.rows && Claimable(s.rows[id], account, s.now) ==> id in locked
  }

  lemma NothingHanded(c: Config, s: Sys, step: Step)
    requires step.Claim? && step.limit > 0
    requires Handed(s.rows, ClaimSet(s.rows, step.account, s.now, step.limit, step.locked)) == {}
    ensures AllDueLocked(Next(c, s, step), step.account, step.locked)
  {
    var ids := ClaimSet(s.rows, step.account, s.now, step.limit, step.locked);
    HandedNone(s.rows, ids);
    ClaimTakesOldest(s.rows, step.account, s.now, step.limit, step.locked);
    var due := Eligible(s.rows, step.account, s.now, step.locked);
    assert due == {};
    forall id | id in s.rows && Claimable(s.rows[id], step.account, s.now) ensures id in step.locked {
      assert id in due <==> id !in step.locked;
    }
  }

  lemma HandedNone(t: Table, ids: set<nat>)
    requires ids <= t.Keys && Handed(t, ids) == {}
    ensures ids == {}
  {
    forall i | i in ids ensures Entry(i, t[i].key, t[i].attempts + 1) in Handed(t, ids) { }
  }

  lemma HandedOnce(t: Table, ids: set<nat>)
    requires ids <= t.Keys
    ensures OnePerRow(Handed(t, ids))
  {
  }

  /** A claim hands out something and uses up potential, or leaves nothing due that is not locked. */
  lemma AfterHanding(c: Config, s: Sys, step: Step)
    requires Sound(s) && step.Claim?
    ensures var claimed := Handed(s.rows, ClaimSet(s.rows, step.account, s.now, step.limit, step.locked));
            && OnePerRow(claimed)
            && (claimed != {} ==> Potential(c, Next(c, s, step)) < Potential(c, s))
            && (claimed == {} && step.limit > 0 ==> AllDueLocked(Next(c, s, step), step.account, step.locked))
  {
    var ids := ClaimSet(s.rows, step.account, s.now, step.limit, step.locked);
    HandedOnce(s.rows, ids);
    if Handed(s.rows, ids) != {} {
      var e :| e in Handed(s.rows, ids);
      ClaimLowersPotential(c, s, step);
    } else if step.limit > 0 {
      NothingHanded(c, s, step);
    }
  }

  /** Others act, then me claims: it owes what it was handed. */
  method OthersActThenClaim(q: Queue, account: string, me: Self, limit: nat)
    returns (claimed: set<Entry>, ghost locked: set<nat>, ghost trace: seq<Step>)
    requires Ledger(q.State(), account, me, {})
    modifies q`now, q`rows, q`book
    ensures Ran(q.config, old(q.State()), trace, q.State())
    ensures Ledger(q.State(), account, Plus(me, claimed), claimed) && OnePerRow(claimed)
    ensures claimed != {} ==> Potential(q.config, q.State()) < Potential(q.config, old(q.State()))
    ensures claimed == {} && limit > 0 ==> AllDueLocked(q.State(), account, locked)
  {
    assert TicketsIn({}) == {};
    ghost var steps := q.OthersAct(me, {});
    ghost var s := q.State();
    DrainClaimsBounded(q.config, old(q.State()), steps);
    ghost var step;
    claimed, step := q.ClaimBatch(account, me.name, limit);
    locked := step.locked;
    LedgerAfterClaim(q.config, s, step, account, me);
    AfterHanding(q.config, s, step);
    RanOnce(q.config, s, step);
    RanTwice(q.config, old(q.State()), steps, s, [step], q.State());
    trace := steps + [step];
  }

  /** The tickets of me's own claims are each reported once, and lock no row. */
  ghost predicate PaidOff(s: Sys, me: Self) {
    && (forall t :: t in me.mine ==> t in s.book.owner && s.book.owner[t] == me.name)
    && (forall t :: t in s.book.owner && s.book.owner[t] == me.name && Own(me, t) ==>
          s.book.reports[t] == 1 && t !in s.book.held)
    && (forall id :: id in s.rows && s.rows[id].worker == Some(me.name) ==> !Own(me, Ticket(id, s.rows[id].attempts)))
  }

  lemma NothingOpen(s: Sys, account: string, me: Self)
    requires Ledger(s, account, me, {})
    ensures PaidOff(s, me)
  {
    assert TicketsIn({}) == {};
  }

  /**
   * One worker from start to finish: each of its claims is reported once, none locks a row any longer, and
   * it returns how many of its claims it reported done. It stops when the rows due were locked by others.
   * If nobody else claims under its name, or left claims in it, the same holds of every claim in its name.
   */
  method RunBodySyncWorker(q: Queue, account: string, name: string, limit: nat, alone: bool)
    returns (total: nat, mine: set<Ticket>, ghost finished: set<Ticket>, ghost locked: set<nat>, ghost trace: seq<Step>)
    requires Ledger(q.State(), account, Self(name, alone, {}), {})
    modifies q`now, q`rows, q`book
    ensures Ran(q.config, old(q.State()), trace, q.State())
    ensures PaidOff(q.State(), Self(name, alone, mine))
    ensures q.book.claims - old(q.book.claims) <= Potential(q.config, old(q.State()))
    ensures total == |finished| && finished <= mine && AllDone(q.State(), name, trace, finished)
    ensures limit > 0 ==> AllDueLocked(q.State(), account, locked)
  {
    total, mine, finished, locked, trace := 0, {}, {}, {}, [];
    while true
      invariant Ran(q.config, old(q.State()), trace, q.State())
      invariant Ledger(q.State(), account, Self(name, alone, mine), {})
      invariant total == |finished| && finished <= mine && AllDone(q.State(), name, trace, finished)
      decreases Potential(q.config, q.State())
    {
      ghost var s := q.State();
      var over, n, got, newly, blocked, more := WorkOnce(q, account, Self(name, alone, mine), limit);
      FinishedInAll(q.config, s, name, trace, finished, more, q.State(), newly);
      RanTwice(q.config, old(q.State()), trace, s, more, q.State());
      trace, mine, finished, total := trace + more, mine + got, finished + newly, total + n;
      if over {
        locked := blocked;
        break;
      }
    }
    NothingOpen(q.State(), account, Self(name, alone, mine));
    DrainClaimsBounded(q.config, old(q.State()), trace);
  }

  /** Tickets unreported before are none of those reported. */
  lemma FinishedInAll(c: Config, s: Sys, me: string, trace: seq<Step>, finished: set<Ticket>, more: seq<Step>, s': Sys, newly: set<Ticket>)
    requires Sound(s) && AllDone(s, me, trace, finished) && Ran(c, s, more, s') && AllDone(s', me, more, newly)
    requires forall t :: t in newly ==> t !in s.book.reports
    ensures finished !! newly && |finished + newly| == |finished| + |newly|
    ensures AllDone(s', me, trace + more, finished + newly)
  {
    MoreFinished(c, s, me, trace, finished, more, s', newly);
    forall t | t in finished ensures t !in newly { assert DoneFor(s, me, trace, t); }
  }

  lemma {:induction false} RunKeepsReports(c: Config, s: Sys, steps: seq<Step>, t: Ticket)
    requires Legal(c, s, steps) && t in s.book.reports
    ensures t in Exec(c, s, steps).book.reports
    decreases |steps|
  {
    if steps != [] { RunKeepsReports(c, Next(c, s, steps[0]), steps[1..], t); }
  }

  /** One claim and what comes of it; over when nothing was claimed. */
  method WorkOnce(q: Queue, account: string, me: Self, limit: nat)
    returns (over: bool, n: nat, got: set<Ticket>, ghost newly: set<Ticket>, ghost locked: set<nat>,
             ghost trace: seq<Step>)
    requires Ledger(q.State(), account, me, {})
    modifies q`now, q`rows, q`book
    ensures Ran(q.config, old(q.State()), trace, q.State())
    ensures Ledger(q.State(), account, me.(mine := me.mine + got), {})
    ensures n == |newly| && newly <= got && AllDone(q.State(), me.name, trace, newly)
    ensures forall t :: t in newly ==> t !in old(q.book.reports)
    ensures !over ==> Potential(q.config, q.State()) < Potential(q.config, old(q.State()))
    ensures over && limit > 0 ==> AllDueLocked(q.State(), account, locked)
  {
    ghost var s0 := q.State();
    var claimed;
    claimed, locked, trace := OthersActThenClaim(q, account, me, limit);
    over, n, got, newly := claimed == {}, 0, TicketsIn(claimed), {};
    if !over {
      ghost var s1 := q.State();
      ghost var more;
      n, newly, more := ProcessClaimed(q, account, Plus(me, claimed), claimed);
      forall t | t in newly ensures t !in s0.book.reports {
        if t in s0.book.reports { RunKeepsReports(q.config, s0, trace, t); }
      }
      DrainClaimsBounded(q.config, s1, more);
      DoneBehind(q.State(), me.name, trace, more, newly);
      RanTwice(q.config, s0, trace, s1, more, q.State());
      trace := trace + more;
    }
  }
}
