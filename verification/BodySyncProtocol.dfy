/** Every interleaving of workers, late and crashed ones included, as runs of one state machine. */
module BodySyncProtocol {
  import opened Common
  import opened BodySyncQueue

  /** What a worker remembers of a claim: the row and the attempt number it was handed. */
  datatype Ticket = Ticket(id: nat, attempt: nat)

  /** The values BodySyncWorkerConfig::from_env clamps. */
  datatype Config = Config(maxAttempts: int, retryBase: int, maxRetryDelay: int, staleAfter: int)

  predicate ValidConfig(c: Config) {
    && c.maxAttempts >= 1
    && 1 <= c.retryBase <= I64_MAX
    && 1 <= c.maxRetryDelay <= I64_MAX
    && c.staleAfter >= 30
  }

  /** History next to the table: outstanding tickets, who drew them, reports made, rows revived or touched. */
  datatype Book = Book(
    held: set<Ticket>,
    owner: map<Ticket, string>,
    reports: multiset<Ticket>,
    revived: map<nat, nat>,
    touched: set<nat>,
    firstClaim: map<nat, int>,
    claims: nat)

  datatype Sys = Sys(now: int, nextId: nat, rows: Table, book: Book)

  datatype Step =
    | Tick(dt: nat)
    | Enqueue(items: seq<Key>)
    | Claim(account: string, worker: string, limit: nat, locked: set<nat>)
    | ReportDone(account: string, tickets: set<Ticket>)
    | ReportRetry(account: string, ticket: Ticket)
    | Forget(tickets: set<Ticket>)
    | ResetStale(account: string)

  // Backoff -----------------------------------------------------------------------------------

  const I64_MAX: int := 0x7FFF_FFFF_FFFF_FFFF
  const I64_MIN: int := -0x8000_0000_0000_0000

  function Pow2(n: nat): (p: nat)
    ensures p >= 1
  {
    if n == 0 then 1 else 2 * Pow2(n - 1)
  }

  function Clamp(x: int, lo: int, hi: int): int
    requires lo <= hi
  {
    if x < lo then lo else if x > hi then hi else x
  }

  function SaturatingMul(a: int, b: int): int { Clamp(a * b, I64_MIN, I64_MAX) }

  /** retry_delay_secs, in its own saturating 64-bit arithmetic. */
  function RetryDelay(base: int, attempt: int, maxDelay: int): int {
    var factor := Pow2(Clamp(attempt - 1, 0, 16));
    Clamp(SaturatingMul(base, factor), 1, Max(maxDelay, 1))
  }

  function Backoff(c: Config, k: nat): int { RetryDelay(c.retryBase, k, c.maxRetryDelay) }

  /** The waits after attempts 1 to k together. */
  function BackoffSum(c: Config, k: nat): int {
    if k == 0 then 0 else BackoffSum(c, k - 1) + Backoff(c, k)
  }

  // The machine -------------------------------------------------------------------------------

  function Count(m: map<nat, nat>, id: nat): nat { if id in m then m[id] else 0 }

  function TicketsOf(rows: Table, ids: set<nat>): set<Ticket>
    requires ids <= rows.Keys
  {
    set i | i in ids :: Ticket(i, rows[i].attempts)
  }

  function IdsOf(tickets: set<Ticket>): set<nat> { set t | t in tickets :: t.id }

  /** Rows an enqueue conflicts with and does not leave alone. */
  function Requeues(s: Sys, items: seq<Key>): set<nat> {
    set i | i in s.rows && s.rows[i].key in items && !s.rows[i].status.Done?
  }

  function StaleRows(c: Config, s: Sys, account: string): set<nat> {
    set i | i in s.rows && Stale(s.rows[i], account, c.staleAfter, s.now)
  }

  /** Counts the rows of ids that were not waiting: the step makes them claimable again. */
  function Revive(s: Sys, ids: set<nat>): map<nat, nat> {
    map i | i in s.rows ::
      Count(s.book.revived, i) + (if i in ids && !Waiting(s.rows[i]) then 1 else 0)
  }

  predicate Enabled(s: Sys, step: Step) {
    match step
    case Enqueue(items) => DistinctKeys(items)
    case ReportDone(account, tickets) =>
      tickets <= s.book.held && forall t :: t in tickets && t.id in s.rows ==> s.rows[t.id].key.account == account
    case ReportRetry(account, t) =>
      t in s.book.held && (t.id in s.rows ==> s.rows[t.id].key.account == account)
    case _ => true
  }

  function Next(c: Config, s: Sys, step: Step): Sys {
    match step
    case Tick(dt) => s.(now := s.now + dt)
    case Enqueue(items) =>
      var hit := Requeues(s, items);
      s.(nextId := s.nextId + |Unqueued(s.rows, items)|,
         rows := AfterEnqueue(s.rows, s.nextId, items, s.now),
         book := s.book.(revived := Revive(s, hit), touched := s.book.touched + hit))
    case Claim(account, worker, limit, locked) =>
      var ids := ClaimSet(s.rows, account, s.now, limit, locked);
      var rows := AfterClaim(s.rows, ids, worker, s.now);
      s.(rows := rows,
         book := s.book.(
           held := s.book.held + TicketsOf(rows, ids),
           owner := s.book.owner + (map t | t in TicketsOf(rows, ids) :: worker),
           firstClaim := (map i | i in ids :: s.now) + s.book.firstClaim,
           claims := s.book.claims + |ids|))
    case ReportDone(account, tickets) =>
      s.(rows := AfterDone(s.rows, account, IdsOf(tickets)),
         book := s.book.(held := s.book.held - tickets, reports := s.book.reports + multiset(tickets)))
    case ReportRetry(account, t) =>
      s.(rows := AfterRetry(s.rows, account, t.id, t.attempt, c.maxAttempts, Backoff(c, t.attempt), s.now),
         book := s.book.(held := s.book.held - {t}, reports := s.book.reports + multiset{t}))
    case Forget(tickets) =>
      s.(book := s.book.(held := s.book.held - tickets))
    case ResetStale(account) =>
      var hit := StaleRows(c, s, account);
      s.(rows := AfterReset(s.rows, account, c.staleAfter, s.now),
         book := s.book.(revived := Revive(s, hit), touched := s.book.touched + hit))
  }

  predicate Legal(c: Config, s: Sys, steps: seq<Step>)
    decreases |steps|
  {
    steps == [] || (Enabled(s, steps[0]) && Legal(c, Next(c, s, steps[0]), steps[1..]))
  }

  function Exec(c: Config, s: Sys, steps: seq<Step>): Sys
    decreases |steps|
  {
    if steps == [] then s else Exec(c, Next(c, s, steps[0]), steps[1..])
  }

  function Initial(now: int): Sys {
    Sys(now, 1, map[], Book({}, map[], multiset{}, map[], {}, map[], 0))
  }

  // Counting availability ---------------------------------------------------------------------

  function Avail(r: Row): nat { if Waiting(r) then 1 else 0 }

  /** Attempt numbers below the limit that were handed out for the row and are no longer held. */
  function Spent(c: Config, held: set<Ticket>, id: nat, attempts: nat): set<int> {
    set v | v in Range(1, c.maxAttempts) && v <= attempts && Ticket(id, v) !in held
  }

  predicate RowInv(c: Config, s: Sys, id: nat)
    requires id in s.rows
  {
    var r := s.rows[id];
    r.attempts + Avail(r) <= 1 + |Spent(c, s.book.held, id, r.attempts)| + Count(s.book.revived, id)
  }

  /** Tickets name existing rows, at attempts already made, and none was reported before. */
  predicate TicketInv(s: Sys) {
    && (forall t :: t in s.book.held ==> t.id in s.rows && 1 <= t.attempt <= s.rows[t.id].attempts && t !in s.book.reports)
    && (forall t :: t in s.book.reports ==> t.id in s.rows && 1 <= t.attempt <= s.rows[t.id].attempts && s.book.reports[t] == 1)
  }

  predicate Sound(s: Sys) {
    && IdsBelow(s.rows, s.nextId)
    && TicketInv(s)
    && s.book.revived.Keys <= s.rows.Keys
    && s.book.firstClaim.Keys <= s.rows.Keys
  }

  predicate Inv(c: Config, s: Sys) {
    && Sound(s)
    && forall id :: id in s.rows ==> RowInv(c, s, id)
  }

  /** What a step does to one old row: the key stays, and only a claim counts an attempt. */
  lemma RowAfter(c: Config, s: Sys, step: Step, id: nat)
    requires IdsBelow(s.rows, s.nextId) && id in s.rows
    ensures var s' := Next(c, s, step);
            && id in s'.rows
            && s'.rows[id].key == s.rows[id].key
            && s'.rows[id].attempts == s.rows[id].attempts +
                 (if step.Claim? && id in ClaimSet(s.rows, step.account, s.now, step.limit, step.locked) then 1 else 0)
  {
    if step.Enqueue? {
      EnqueuedRow(s.rows, s.nextId, step.items, s.now, id);
    }
  }

  lemma StepKeepsIds(c: Config, s: Sys, step: Step)
    requires IdsBelow(s.rows, s.nextId)
    ensures IdsBelow(Next(c, s, step).rows, Next(c, s, step).nextId)
    ensures s.rows.Keys <= Next(c, s, step).rows.Keys
  {
    if step.Enqueue? {
      forall i | i in Next(c, s, step).rows ensures i < Next(c, s, step).nextId {
        EnqueuedRow(s.rows, s.nextId, step.items, s.now, i);
      }
    }
  }

  lemma StepKeepsKeysUnique(c: Config, s: Sys, step: Step)
    requires IdsBelow(s.rows, s.nextId) && KeysUnique(s.rows) && Enabled(s, step)
    ensures KeysUnique(Next(c, s, step).rows)
  {
    if step.Enqueue? {
      EnqueueKeepsKeysUnique(s.rows, s.nextId, step.items, s.now);
    } else {
      forall i | i in s.rows ensures Next(c, s, step).rows[i].key == s.rows[i].key {
        RowAfter(c, s, step, i);
      }
    }
  }

  lemma StepKeepsTickets(c: Config, s: Sys, step: Step)
    requires IdsBelow(s.rows, s.nextId) && TicketInv(s) && Enabled(s, step)
    ensures TicketInv(Next(c, s, step))
  {
    var s' := Next(c, s, step);
    forall id | id in s.rows ensures id in s'.rows && s'.rows[id].attempts >= s.rows[id].attempts {
      RowAfter(c, s, step, id);
    }
    match step
    case Claim(account, worker, limit, locked) =>
      var ids := ClaimSet(s.rows, account, s.now, limit, locked);
      forall t | t in TicketsOf(s'.rows, ids)
        ensures t.id in s.rows && t.attempt == s.rows[t.id].attempts + 1 == s'.rows[t.id].attempts
      {
        RowAfter(c, s, step, t.id);
      }
    case _ =>
  }

  /** A ticket handed back can only enlarge the set of spent attempt numbers. */
  lemma SpentGrows(c: Config, held: set<Ticket>, held': set<Ticket>, id: nat, attempts: nat)
    requires held' <= held
    ensures |Spent(c, held, id, attempts)| <= |Spent(c, held', id, attempts)|
  {
    SubsetSize(Spent(c, held, id, attempts), Spent(c, held', id, attempts));
  }

  lemma ClaimKeepsRow(c: Config, s: Sys, step: Step, id: nat)
    requires Sound(s) && step.Claim? && id in s.rows && RowInv(c, s, id)
    ensures RowInv(c, Next(c, s, step), id)
  {
    RowAfter(c, s, step, id);
    var s' := Next(c, s, step);
    var a, a' := s.rows[id].attempts, s'.rows[id].attempts;
    forall v | 1 <= v <= a' ensures Ticket(id, v) in s'.book.held <==> Ticket(id, v) in s.book.held || (v == a' && a' == a + 1) {}
    assert Spent(c, s'.book.held, id, a') == Spent(c, s.book.held, id, a);
  }

  lemma RetryKeepsRow(c: Config, s: Sys, step: Step, id: nat)
    requires Sound(s) && step.ReportRetry? && Enabled(s, step) && id in s.rows && RowInv(c, s, id)
    ensures RowInv(c, Next(c, s, step), id)
  {
    var t, a := step.ticket, s.rows[id].attempts;
    var held' := s.book.held - {t};
    if t.id == id && t.attempt < c.maxAttempts {
      assert Spent(c, held', id, a) == Spent(c, s.book.held, id, a) + {t.attempt as int};
    } else {
      SpentGrows(c, s.book.held, held', id, a);
    }
  }

  lemma EnqueueKeepsRow(c: Config, s: Sys, step: Step, id: nat)
    requires Sound(s) && step.Enqueue? && Enabled(s, step) && id in Next(c, s, step).rows
    requires id in s.rows ==> RowInv(c, s, id)
    ensures RowInv(c, Next(c, s, step), id)
  {
    EnqueuedRow(s.rows, s.nextId, step.items, s.now, id);
  }

  lemma StepKeepsRow(c: Config, s: Sys, step: Step, id: nat)
    requires Sound(s) && Enabled(s, step) && id in Next(c, s, step).rows
    requires id in s.rows ==> RowInv(c, s, id)
    ensures RowInv(c, Next(c, s, step), id)
  {
    var s' := Next(c, s, step);
    match step
    case Enqueue(items) =>
      EnqueueKeepsRow(c, s, step, id);
    case Claim(_, _, _, _) =>
      ClaimKeepsRow(c, s, step, id);
    case ReportDone(account, tickets) =>
      SpentGrows(c, s.book.held, s'.book.held, id, s.rows[id].attempts);
    case ReportRetry(_, _) =>
      RetryKeepsRow(c, s, step, id);
    case Forget(tickets) =>
      SpentGrows(c, s.book.held, s'.book.held, id, s.rows[id].attempts);
    case _ =>
  }

  lemma StepKeepsSound(c: Config, s: Sys, step: Step)
    requires Sound(s) && Enabled(s, step)
    ensures Sound(Next(c, s, step))
    ensures s.rows.Keys <= Next(c, s, step).rows.Keys
  {
    StepKeepsIds(c, s, step);
    StepKeepsTickets(c, s, step);
  }

  lemma StepKeepsInv(c: Config, s: Sys, step: Step)
    requires Inv(c, s) && Enabled(s, step)
    ensures Inv(c, Next(c, s, step))
  {
    var s' := Next(c, s, step);
    StepKeepsSound(c, s, step);
    forall id | id in s'.rows ensures RowInv(c, s', id) {
      StepKeepsRow(c, s, step, id);
    }
  }

  lemma {:induction false} RunKeepsInv(c: Config, s: Sys, steps: seq<Step>)
    requires Inv(c, s) && Legal(c, s, steps)
    ensures Inv(c, Exec(c, s, steps))
    decreases |steps|
  {
    if steps != [] {
      StepKeepsInv(c, s, steps[0]);
      RunKeepsInv(c, Next(c, s, steps[0]), steps[1..]);
    }
  }

  /** In every run, a row is claimed at most maxAttempts times plus once for every revival. */
  lemma AttemptBound(c: Config, start: int, steps: seq<Step>, id: nat)
    requires ValidConfig(c) && Legal(c, Initial(start), steps)
    ensures var s := Exec(c, Initial(start), steps);
            id in s.rows ==> s.rows[id].attempts <= c.maxAttempts + Count(s.book.revived, id)
  {
    RunKeepsInv(c, Initial(start), steps);
    var s := Exec(c, Initial(start), steps);
    if id in s.rows {
      SubsetSize(Spent(c, s.book.held, id, s.rows[id].attempts), Range(1, c.maxAttempts));
    }
  }

  /** In every run, there is at most one queue row per (account, folder, UID, UIDVALIDITY, Message-ID). */
  lemma {:induction false} OneRowPerKey(c: Config, s: Sys, steps: seq<Step>)
    requires IdsBelow(s.rows, s.nextId) && KeysUnique(s.rows) && Legal(c, s, steps)
    ensures KeysUnique(Exec(c, s, steps).rows)
    decreases |steps|
  {
    if steps != [] {
      StepKeepsIds(c, s, steps[0]);
      StepKeepsKeysUnique(c, s, steps[0]);
      OneRowPerKey(c, Next(c, s, steps[0]), steps[1..]);
    }
  }

  /** Every claim is reported at most once, and a claim still held was not reported at all. */
  lemma ReportedAtMostOnce(c: Config, start: int, steps: seq<Step>, t: Ticket)
    requires Legal(c, Initial(start), steps)
    ensures var b := Exec(c, Initial(start), steps).book;
            b.reports[t] <= 1 && (t in b.held ==> b.reports[t] == 0)
  {
    RunKeepsInv(c, Initial(start), steps);
  }

  // When done is final ------------------------------------------------------------------------

  ghost predicate Unheld(s: Sys, id: nat) { forall t :: t in s.book.held ==> t.id != id }

  lemma {:induction false} DoneStays(c: Config, s: Sys, steps: seq<Step>, id: nat)
    requires Sound(s) && Legal(c, s, steps)
    requires DoneAt(s, id) && Unheld(s, id)
    ensures DoneAt(Exec(c, s, steps), id)
    decreases |steps|
  {
    if steps != [] {
      var s' := Next(c, s, steps[0]);
      StepKeepsSound(c, s, steps[0]);
      RowAfter(c, s, steps[0], id);
      if steps[0].Enqueue? {
        EnqueuedRow(s.rows, s.nextId, steps[0].items, s.now, id);
      }
      DoneStays(c, s', steps[1..], id);
    }
  }

  predicate DoneAt(s: Sys, id: nat) { id in s.rows && s.rows[id].status.Done? }

  /** While nothing is enqueued or reset, only a late retry report of the row takes it out of done. */
  lemma {:induction false} DoneUnlessRetried(c: Config, s: Sys, steps: seq<Step>, id: nat)
    requires Sound(s) && Legal(c, s, steps) && DoneAt(s, id)
    requires forall i :: 0 <= i < |steps| ==> !(steps[i].ReportRetry? && steps[i].ticket.id == id)
    ensures DoneAt(Exec(c, s, steps), id)
    decreases |steps|
  {
    if steps != [] {
      StepKeepsSound(c, s, steps[0]);
      RowAfter(c, s, steps[0], id);
      if steps[0].Enqueue? {
        EnqueuedRow(s.rows, s.nextId, steps[0].items, s.now, id);
      }
      DoneUnlessRetried(c, Next(c, s, steps[0]), steps[1..], id);
    }
  }

  ghost predicate DoneForever(c: Config, s: Sys, id: nat) {
    forall steps :: Legal(c, s, steps) ==> DoneAt(Exec(c, s, steps), id)
  }

  /** A late retry report takes a done row out of done. */
  lemma LateReportRevives(c: Config, s: Sys, t: Ticket)
    requires Sound(s) && t in s.book.held && DoneAt(s, t.id)
    ensures !DoneForever(c, s, t.id)
  {
    var late := ReportRetry(s.rows[t.id].key.account, t);
    var s' := Next(c, s, late);
    assert !DoneAt(s', t.id);
    assert [late][1..] == [];
    assert Legal(c, s', []) && Exec(c, s', []) == s';
    assert Legal(c, s, [late]) && Exec(c, s, [late]) == s';
  }

  /** A done row stays done whatever follows exactly when no worker still holds a ticket for it. */
  lemma DoneIsFinalIffUnheld(c: Config, s: Sys, id: nat)
    requires Sound(s) && DoneAt(s, id)
    ensures Unheld(s, id) <==> DoneForever(c, s, id)
  {
    if Unheld(s, id) {
      forall steps | Legal(c, s, steps) ensures DoneAt(Exec(c, s, steps), id) {
        DoneStays(c, s, steps, id);
      }
    } else {
      var t :| t in s.book.held && t.id == id;
      LateReportRevives(c, s, t);
    }
  }

  // Locks ---------------------------------------------------------------------------------------

  /**
   * A processing row's lock lasts as long as configured, at least a second: the reset of its account frees
   * the row, due at once and with its attempts kept, exactly when the lock is older.
   */
  lemma LockExpires(c: Config, s: Sys, id: nat, at: int)
    requires id in s.rows && s.rows[id].status == Processing && s.rows[id].lockedAt == Some(at)
    ensures var r := s.rows[id];
            var r' := Next(c, s, ResetStale(r.key.account)).rows[id];
            && r'.key == r.key && r'.attempts == r.attempts
            && if s.now - at > Max(c.staleAfter, 1)
               then r'.status == Failed && r'.availableAt == s.now && r'.lockedAt == None && r'.worker == None
               else r' == r
    ensures forall account :: account != s.rows[id].key.account ==> Next(c, s, ResetStale(account)).rows[id] == s.rows[id]
  {
  }

  // Dead-letter timing ------------------------------------------------------------------------

  /** The saturating product is invisible: the delay is the clamped unbounded product. */
  lemma RetryDelayIsExact(base: int, attempt: int, maxDelay: int)
    requires I64_MIN <= base <= I64_MAX && maxDelay <= I64_MAX
    ensures RetryDelay(base, attempt, maxDelay)
         == Clamp(base * Pow2(Clamp(attempt - 1, 0, 16)), 1, Max(maxDelay, 1))
  {}

  /** The wait the configuration asks for after attempt k, in unbounded arithmetic. */
  function Wait(c: Config, k: nat): int
    requires k >= 1
  {
    Min(c.maxRetryDelay, c.retryBase * Pow2(Min(k - 1, 16)))
  }

  function WaitSum(c: Config, k: nat): int {
    if k == 0 then 0 else WaitSum(c, k - 1) + Wait(c, k)
  }

  lemma PositiveProduct(a: int, p: int)
    requires a >= 1 && p >= 1
    ensures a * p >= 1
  {
    assert (a - 1) * p >= 0;
  }

  lemma BackoffIsWait(c: Config, k: nat)
    requires ValidConfig(c) && k >= 1
    ensures Backoff(c, k) == Wait(c, k)
  {
    RetryDelayIsExact(c.retryBase, k, c.maxRetryDelay);
    var e := Min(k - 1, 16);
    assert Clamp(k - 1, 0, 16) == e;
    PositiveProduct(c.retryBase, Pow2(e));
  }

  /** The first delay is the configured base, and each further one twice the last, up to the limit. */
  lemma BackoffDoubles(c: Config, k: nat)
    requires ValidConfig(c) && k >= 1
    ensures Backoff(c, 1) == Min(c.retryBase, c.maxRetryDelay)
    ensures Backoff(c, k + 1) == if k <= 16 then Min(2 * Backoff(c, k), c.maxRetryDelay) else Backoff(c, k)
  {
    BackoffIsWait(c, 1);
    BackoffIsWait(c, k);
    BackoffIsWait(c, k + 1);
    assert Pow2(0) == 1;
    if k <= 16 { TwiceAsLong(c.retryBase, Pow2(k - 1), Pow2(k), c.maxRetryDelay); }
  }

  lemma TwiceAsLong(base: int, p: nat, q: nat, limit: int)
    requires q == 2 * p && limit >= 1
    ensures Min(limit, base * q) == Min(2 * Min(limit, base * p), limit)
  {
    assert base * q == 2 * (base * p);
  }

  lemma {:induction false} BackoffSumIsWaitSum(c: Config, k: nat)
    requires ValidConfig(c)
    ensures BackoffSum(c, k) == WaitSum(c, k)
  {
    if k > 0 {
      BackoffSumIsWaitSum(c, k - 1);
      BackoffIsWait(c, k);
    }
  }

  lemma {:induction false} BackoffSumMonotone(c: Config, j: nat, k: nat)
    requires j <= k
    ensures BackoffSum(c, j) <= BackoffSum(c, k)
    decreases k - j
  {
    if j < k {
      BackoffSumMonotone(c, j, k - 1);
    }
  }

  /** A row nobody reset or re-enqueued is at most in one worker's hands and never claimed early. */
  predicate TimingInv(c: Config, s: Sys, id: nat)
    requires id in s.rows
  {
    var r := s.rows[id];
    id !in s.book.touched ==>
      && (r.status.Pending? <==> r.attempts == 0)
      && (r.attempts > 0 <==> id in s.book.firstClaim)
      && (forall t :: t in s.book.held && t.id == id ==> r.status.Processing? && t.attempt == r.attempts)
      && (r.status.Failed? ==> r.availableAt >= s.book.firstClaim[id] + BackoffSum(c, r.attempts))
      && (r.status.Processing? || r.status.Dead? ==> s.now >= s.book.firstClaim[id] + BackoffSum(c, r.attempts - 1))
      && (r.status.Dead? ==> r.attempts >= c.maxAttempts)
  }

  predicate TimedInv(c: Config, s: Sys) {
    && Sound(s)
    && forall id :: id in s.rows ==> TimingInv(c, s, id)
  }

  lemma ClaimKeepsTiming(c: Config, s: Sys, step: Step, id: nat)
    requires Sound(s) && step.Claim? && id in s.rows && TimingInv(c, s, id)
    ensures TimingInv(c, Next(c, s, step), id)
  {
    var ids := ClaimSet(s.rows, step.account, s.now, step.limit, step.locked);
    if id in ids { ClaimedKeepsTiming(c, s, step, id); } else { UnclaimedKeepsTiming(c, s, step, id); }
  }

  lemma ClaimedKeepsTiming(c: Config, s: Sys, step: Step, id: nat)
    requires Sound(s) && step.Claim? && id in s.rows && TimingInv(c, s, id)
    requires id in ClaimSet(s.rows, step.account, s.now, step.limit, step.locked)
    ensures TimingInv(c, Next(c, s, step), id)
  {
    RowAfter(c, s, step, id);
    var s' := Next(c, s, step);
    assert Claimable(s.rows[id], step.account, s.now);
    assert id !in s.book.touched ==> forall t :: t in s.book.held ==> t.id != id;
    forall t | t in s'.book.held && t.id == id ensures t in s.book.held || t.attempt == s'.rows[id].attempts {}
  }

  lemma UnclaimedKeepsTiming(c: Config, s: Sys, step: Step, id: nat)
    requires Sound(s) && step.Claim? && id in s.rows && TimingInv(c, s, id)
    requires id !in ClaimSet(s.rows, step.account, s.now, step.limit, step.locked)
    ensures TimingInv(c, Next(c, s, step), id)
  {
    RowAfter(c, s, step, id);
    var s' := Next(c, s, step);
    forall t | t in s'.book.held && t.id == id ensures t in s.book.held {}
  }

  lemma RetryKeepsTiming(c: Config, s: Sys, step: Step, id: nat)
    requires Sound(s) && step.ReportRetry? && Enabled(s, step) && id in s.rows && TimingInv(c, s, id)
    ensures TimingInv(c, Next(c, s, step), id)
  {}

  lemma EnqueueKeepsTiming(c: Config, s: Sys, step: Step, id: nat)
    requires Sound(s) && step.Enqueue? && id in Next(c, s, step).rows
    requires id in s.rows ==> TimingInv(c, s, id)
    ensures TimingInv(c, Next(c, s, step), id)
  {
    EnqueuedRow(s.rows, s.nextId, step.items, s.now, id);
  }

  lemma DoneKeepsTiming(c: Config, s: Sys, step: Step, id: nat)
    requires Sound(s) && step.ReportDone? && Enabled(s, step) && id in s.rows && TimingInv(c, s, id)
    ensures TimingInv(c, Next(c, s, step), id)
  {
    var s' := Next(c, s, step);
    if id in IdsOf(step.tickets) {
      var t :| t in step.tickets && t.id == id;
      assert id !in s.book.touched ==> s.rows[id].attempts == t.attempt;
    }
  }

  lemma ResetKeepsTiming(c: Config, s: Sys, step: Step, id: nat)
    requires Sound(s) && step.ResetStale? && id in s.rows && TimingInv(c, s, id)
    ensures TimingInv(c, Next(c, s, step), id)
  {
    assert id in StaleRows(c, s, step.account) <==> Stale(s.rows[id], step.account, c.staleAfter, s.now);
  }

  lemma StepKeepsTiming(c: Config, s: Sys, step: Step, id: nat)
    requires Sound(s) && Enabled(s, step) && id in Next(c, s, step).rows
    requires id in s.rows ==> TimingInv(c, s, id)
    ensures TimingInv(c, Next(c, s, step), id)
  {
    match step
    case Enqueue(_) => EnqueueKeepsTiming(c, s, step, id);
    case Claim(_, _, _, _) => ClaimKeepsTiming(c, s, step, id);
    case ReportRetry(_, _) => RetryKeepsTiming(c, s, step, id);
    case ReportDone(_, _) => DoneKeepsTiming(c, s, step, id);
    case ResetStale(_) => ResetKeepsTiming(c, s, step, id);
    case _ =>
  }

  lemma {:induction false} RunKeepsTiming(c: Config, s: Sys, steps: seq<Step>)
    requires TimedInv(c, s) && Legal(c, s, steps)
    ensures TimedInv(c, Exec(c, s, steps))
    decreases |steps|
  {
    if steps != [] {
      var s' := Next(c, s, steps[0]);
      StepKeepsSound(c, s, steps[0]);
      forall id | id in s'.rows ensures TimingInv(c, s', id) {
        StepKeepsTiming(c, s, steps[0], id);
      }
      RunKeepsTiming(c, s', steps[1..]);
    }
  }

  lemma DeadAfterWaits(c: Config, s: Sys, id: nat)
    requires ValidConfig(c) && id in s.rows && TimingInv(c, s, id)
    requires id !in s.book.touched && s.rows[id].status.Dead?
    ensures id in s.book.firstClaim && s.now - s.book.firstClaim[id] >= WaitSum(c, c.maxAttempts - 1)
  {
    BackoffSumMonotone(c, c.maxAttempts - 1, s.rows[id].attempts - 1);
    BackoffSumIsWaitSum(c, c.maxAttempts - 1);
  }

  /** An untouched row is dead only after all the waits between maxAttempts claims have passed. */
  lemma DeadLetterTiming(c: Config, start: int, steps: seq<Step>, id: nat)
    requires ValidConfig(c) && Legal(c, Initial(start), steps)
    ensures var s := Exec(c, Initial(start), steps);
            id in s.rows && id !in s.book.touched && s.rows[id].status.Dead?
            ==> id in s.book.firstClaim && s.now - s.book.firstClaim[id] >= WaitSum(c, c.maxAttempts - 1)
  {
    RunKeepsTiming(c, Initial(start), steps);
    var s := Exec(c, Initial(start), steps);
    if id in s.rows && id !in s.book.touched && s.rows[id].status.Dead? {
      DeadAfterWaits(c, s, id);
    }
  }
}
