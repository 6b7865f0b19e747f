/** The agent harness waits until the database is filled: polling, capped doubling backoff, and work requests. */
module ReadinessWait {
  import opened Common

  const I64_MAX: nat := 0x7FFF_FFFF_FFFF_FFFF
  const U64_MAX: nat := 0xFFFF_FFFF_FFFF_FFFF
  /** Duration::MAX in whole milliseconds; from_millis cannot exceed it. */
  const DURATION_MAX: nat := U64_MAX * 1000 + 999

  datatype Work = SyncFull | SyncBody | Analyze | Locate

  datatype Snapshot = Snapshot(
    folders: nat, largestFolder: nat, emails: nat,
    bodyMissing: nat, analysisMissing: nat, locationMissing: nat,
    pending: nat, failed: nat, processing: nat
  )

  predicate NeedsFullSync(s: Snapshot) {
    s.emails == 0 || (s.largestFolder >= 100 && Min(s.emails * 4, I64_MAX) < s.largestFolder)
  }

  predicate HasBacklog(s: Snapshot) {
    || NeedsFullSync(s) || s.folders == 0
    || s.bodyMissing > 0 || s.analysisMissing > 0 || s.locationMissing > 0
    || s.pending > 0 || s.failed > 0 || s.processing > 0
  }

  /** The work a snapshot calls for, in the order it is asked for. */
  function Classify(s: Snapshot): seq<Work> {
    (if s.folders == 0 || NeedsFullSync(s) then [SyncFull] else [])
    + (if s.bodyMissing > 0 || s.pending > 0 || s.failed > 0 || s.processing > 0 then [SyncBody] else [])
    + (if s.analysisMissing > 0 then [Analyze] else [])
    + (if s.locationMissing > 0 then [Locate] else [])
  }

  predicate NoDuplicates<T(==)>(s: seq<T>) { forall i, j :: 0 <= i < j < |s| ==> s[i] != s[j] }

  /** Whatever holds a run back is work that gets requested, and nothing else is. */
  lemma BacklogIffWorkToRequest(s: Snapshot)
    ensures HasBacklog(s) <==> Classify(s) != []
    ensures NoDuplicates(Classify(s))
  {
  }

  function Rank(w: Work): nat { match w case SyncFull => 0 case SyncBody => 1 case Analyze => 2 case Locate => 3 }

  /**
   * Which work a snapshot calls for: a full sync without folders or emails, or when a folder of a hundred
   * messages or more has over four times as many as are stored; bodies, analyses and locations where some
   * are missing, or body work is queued or going on. It is asked for in this order.
   */
  lemma WorkIsForWhatIsMissing(s: Snapshot)
    requires s.largestFolder <= I64_MAX
    ensures SyncFull in Classify(s) <==> s.folders == 0 || s.emails == 0 || (s.largestFolder >= 100 && 4 * s.emails < s.largestFolder)
    ensures SyncBody in Classify(s) <==> s.bodyMissing + s.pending + s.failed + s.processing > 0
    ensures Analyze in Classify(s) <==> s.analysisMissing > 0
    ensures Locate in Classify(s) <==> s.locationMissing > 0
    ensures forall i, j :: 0 <= i < j < |Classify(s)| ==> Rank(Classify(s)[i]) < Rank(Classify(s)[j])
  {
    WhoseWork(s);
  }

  lemma WhoseWork(s: Snapshot)
    ensures SyncFull in Classify(s) <==> s.folders == 0 || NeedsFullSync(s)
    ensures SyncBody in Classify(s) <==> s.bodyMissing > 0 || s.pending > 0 || s.failed > 0 || s.processing > 0
    ensures Analyze in Classify(s) <==> s.analysisMissing > 0
    ensures Locate in Classify(s) <==> s.locationMissing > 0
  {
  }

  // Configuration -------------------------------------------------------------------------------

  datatype Config = Config(enabled: bool, requestWork: bool, maxWait: nat, initial: nat, maxBackoff: nat, stableRequired: nat)

  predicate ValidConfig(c: Config) {
    && 0 < c.initial <= c.maxBackoff <= U64_MAX
    && c.maxWait > 0
    && 1 <= c.stableRequired <= U32_MAX
  }

  /** The limits read from the environment, in milliseconds, with the clamps applied. */
  function FromEnv(enabled: bool, requestWork: bool, maxWaitSecs: nat, initialMs: nat, maxBackoffMs: nat, stablePolls: nat): (c: Config)
    requires maxWaitSecs <= U64_MAX && initialMs <= U64_MAX && maxBackoffMs <= U64_MAX && stablePolls <= U32_MAX
    ensures ValidConfig(c) && c.enabled == enabled && c.requestWork == requestWork
    ensures c.maxWait == if maxWaitSecs == 0 then 1000 else 1000 * maxWaitSecs
    ensures c.initial == if initialMs < 50 then 50 else initialMs
    ensures c.maxBackoff == if maxBackoffMs < c.initial then c.initial else maxBackoffMs
    ensures c.stableRequired == if stablePolls == 0 then 1 else stablePolls
  {
    Config(enabled, requestWork, Max(maxWaitSecs, 1) * 1000, Max(initialMs, 50), Max(maxBackoffMs, Max(initialMs, 50)), Max(stablePolls, 1))
  }

  // Polls ---------------------------------------------------------------------------------------

  /**
   * What the environment contributes to one poll: the snapshot, unless loading it fails, the time up
   * to the check of the deadline, and the time lost afterwards beyond the sleep itself.
   */
  datatype Poll = Poll(snapshot: Option<Snapshot>, took: nat, late: nat)

  type Polls = nat -> Poll

  predicate Loaded(env: Polls, n: nat) { forall i :: 0 <= i < n ==> env(i).snapshot.Some? }

  function EmailsAt(env: Polls, i: nat): nat
    requires env(i).snapshot.Some?
  {
    env(i).snapshot.value.emails
  }

  /** The last k of the first n polls saw the same number of emails. */
  predicate SameEmails(env: Polls, n: nat, k: nat)
    requires Loaded(env, n) && k <= n
  {
    forall i :: n - k <= i < n ==> EmailsAt(env, i) == EmailsAt(env, n - 1)
  }

  /** How many polls back the number of emails has been the same. */
  function StableFor(env: Polls, n: nat): nat
    requires Loaded(env, n)
  {
    if n == 0 then 0
    else if n == 1 || EmailsAt(env, n - 1) != EmailsAt(env, n - 2) then 1
    else 1 + StableFor(env, n - 1)
  }

  /** It is the length of the longest suffix of equal observations. */
  lemma {:induction false} StableForIsLongest(env: Polls, n: nat, k: nat)
    requires Loaded(env, n) && n > 0 && k <= n
    ensures StableFor(env, n) <= n
    ensures SameEmails(env, n, k) <==> k <= StableFor(env, n)
  {
    if n > 1 {
      StableForIsLongest(env, n - 1, if k == 0 then 0 else k - 1);
      if k > 1 && SameEmails(env, n, k) {
        assert EmailsAt(env, n - 2) == EmailsAt(env, n - 1);
        forall i | n - k <= i < n - 1 ensures EmailsAt(env, i) == EmailsAt(env, n - 2) { }
        assert SameEmails(env, n - 1, k - 1);
      }
    }
  }

  /** A poll ends the wait: nothing in the backlog and the count stable for long enough. */
  predicate ReadyAt(c: Config, env: Polls, i: nat)
    requires Loaded(env, i + 1)
  {
    !HasBacklog(env(i).snapshot.value) && StableFor(env, i + 1) >= c.stableRequired
  }

  /** The work called for by the first n polls. */
  function Wanted(env: Polls, n: nat): set<Work>
    requires Loaded(env, n)
  {
    if n == 0 then {} else Wanted(env, n - 1) + AsSet(Classify(env(n - 1).snapshot.value))
  }

  function AsSet<T(==)>(s: seq<T>): set<T> { set x | x in s }

  // Backoff -------------------------------------------------------------------------------------

  function Pow2(n: nat): (r: nat)
    ensures r >= 1
  {
    if n == 0 then 1 else 2 * Pow2(n - 1)
  }

  /** The n-th sleep, counted from 0. */
  function SleepAt(c: Config, n: nat): nat { Min(c.initial * Pow2(n), c.maxBackoff) }

  function Sleeps(c: Config, n: nat): seq<nat> { if n == 0 then [] else Sleeps(c, n - 1) + [SleepAt(c, n - 1)] }

  function SleepSum(c: Config, n: nat): nat { if n == 0 then 0 else SleepSum(c, n - 1) + SleepAt(c, n - 1) }

  /** The first sleep is the configured one, and each further one twice the last, up to the limit. */
  lemma NextSleep(c: Config, n: nat)
    requires ValidConfig(c)
    ensures SleepAt(c, 0) == c.initial
    ensures SleepAt(c, n + 1) == Min(2 * SleepAt(c, n), c.maxBackoff) == Min(Min(SleepAt(c, n) * 2, DURATION_MAX), c.maxBackoff)
    ensures SleepAt(c, n) >= c.initial
  {
    assert Pow2(0) == 1;
    assert c.initial * Pow2(n + 1) == 2 * (c.initial * Pow2(n));
    assert c.initial * Pow2(n) >= c.initial by { AtLeast(c.initial, Pow2(n)); }
  }

  lemma AtLeast(a: nat, b: nat)
    requires b >= 1
    ensures a * b >= a
  {
    assert a * b == a + a * (b - 1);
  }

  lemma {:induction false} SleepSumGrows(c: Config, n: nat)
    requires ValidConfig(c)
    ensures SleepSum(c, n) >= n * c.initial
  {
    if n > 0 {
      SleepSumGrows(c, n - 1);
      NextSleep(c, n - 1);
      MulStep(n - 1, c.initial);
    }
  }

  lemma MulStep(n: nat, c: nat)
    ensures (n + 1) * c == n * c + c
  {
  }

  /** When poll n starts. */
  function Clock(c: Config, env: Polls, n: nat): nat {
    if n == 0 then 0 else Clock(c, env, n - 1) + env(n - 1).took + SleepAt(c, n - 1) + env(n - 1).late
  }

  /** When the deadline is checked in poll n. */
  function CheckedAt(c: Config, env: Polls, n: nat): nat { Clock(c, env, n) + env(n).took }

  lemma {:induction false} ClockCoversSleeps(c: Config, env: Polls, n: nat)
    ensures Clock(c, env, n) >= SleepSum(c, n)
  {
    if n > 0 { ClockCoversSleeps(c, env, n - 1); }
  }

  function CeilDiv(a: nat, b: nat): nat
    requires b > 0
  {
    (a + b - 1) / b
  }

  /** Sleeps that add up to less than the limit are fewer than the limit holds initial sleeps. */
  lemma FewSleeps(c: Config, n: nat)
    requires ValidConfig(c) && SleepSum(c, n) < c.maxWait
    ensures n + 1 <= CeilDiv(c.maxWait, c.initial)
  {
    SleepSumGrows(c, n);
    var q := (c.maxWait + c.initial - 1) / c.initial;
    if q <= n { MulMono(q, n, c.initial); }
  }

  lemma MulMono(a: nat, b: nat, c: nat)
    requires a <= b
    ensures a * c <= b * c
  {
    assert b * c == a * c + (b - a) * c;
  }

  // The loop ------------------------------------------------------------------------------------

  datatype Outcome = Skipped | Ready | TimedOut | LoadFailed

  /** The work not asked for before; asking that fails is remembered like asking that succeeds. */
  method RequestWork(c: Config, missing: seq<Work>) returns (requested: seq<Work>)
    ensures requested == if c.requestWork then missing else []
  {
    requested := [];
    if !c.requestWork || missing == [] { return; }
    for i := 0 to |missing|
      invariant requested == missing[..i]
    {
      requested := requested + [missing[i]];
    }
  }

  function NotIn(work: seq<Work>, done: seq<Work>): seq<Work> {
    if work == [] then [] else (if work[0] in done then [] else [work[0]]) + NotIn(work[1..], done)
  }

  lemma {:induction false} NotInIsExact(work: seq<Work>, done: seq<Work>)
    requires NoDuplicates(work)
    ensures NoDuplicates(NotIn(work, done))
    ensures forall w :: w in NotIn(work, done) <==> w in work && w !in done
  {
    if work != [] {
      NotInIsExact(work[1..], done);
      assert work == [work[0]] + work[1..];
    }
  }

  lemma ExtendRequested(requested: seq<Work>, work: seq<Work>)
    requires NoDuplicates(requested) && NoDuplicates(work)
    ensures NoDuplicates(requested + NotIn(work, requested))
    ensures AsSet(requested + NotIn(work, requested)) == AsSet(requested) + AsSet(work)
  {
    NotInIsExact(work, requested);
    var rest := NotIn(work, requested);
    var all := requested + rest;
    forall i, j | 0 <= i < j < |all| ensures all[i] != all[j] {
      if i < |requested| <= j {
        assert rest[j - |requested|] in rest && all[i] in requested;
      } else if i >= |requested| {
        assert all[i] == rest[i - |requested|] && all[j] == rest[j - |requested|];
      }
    }
    assert forall w :: w in requested + NotIn(work, requested) <==> w in requested || w in work;
  }

  /** What has been asked for by the first n polls. */
  ghost predicate Asked(c: Config, env: Polls, n: nat, requested: seq<Work>)
    requires Loaded(env, n)
  {
    NoDuplicates(requested) && AsSet(requested) == if c.requestWork then Wanted(env, n) else {}
  }

  method AskForMissing(c: Config, snapshot: Snapshot, requested: seq<Work>, ghost env: Polls, ghost n: nat)
    returns (requested': seq<Work>)
    requires Loaded(env, n + 1) && env(n).snapshot == Some(snapshot) && Asked(c, env, n, requested)
    ensures Asked(c, env, n + 1, requested')
  {
    BacklogIffWorkToRequest(snapshot);
    ExtendRequested(requested, Classify(snapshot));
    var newly := RequestWork(c, NotIn(Classify(snapshot), requested));
    requested' := requested + newly;
  }

  method CountStable(stable: nat, previous: Option<nat>, emails: nat, ghost env: Polls, ghost n: nat) returns (stable': nat)
    requires Loaded(env, n + 1) && EmailsAt(env, n) == emails
    requires stable == Min(StableFor(env, n), U32_MAX)
    requires previous == if n == 0 then None else Some(EmailsAt(env, n - 1))
    ensures stable' == Min(StableFor(env, n + 1), U32_MAX)
  {
    stable' := if previous == Some(emails) then SatAdd32(stable, 1) else 1;
  }

  /** Poll i was neither ready nor late. */
  predicate PollOver(c: Config, env: Polls, i: nat) {
    Loaded(env, i + 1) && !ReadyAt(c, env, i) && CheckedAt(c, env, i) < c.maxWait
  }

  /** What is known while the loop runs: n polls are over, none was ready, none met the deadline. */
  ghost predicate Waited(c: Config, env: Polls, n: nat) {
    Loaded(env, n) && forall i :: 0 <= i < n ==> PollOver(c, env, i)
  }

  lemma WaitedIsBounded(c: Config, env: Polls, n: nat)
    requires ValidConfig(c) && Waited(c, env, n)
    ensures n <= CeilDiv(c.maxWait, c.initial)
  {
    if n > 0 {
      assert PollOver(c, env, n - 1);
      ClockCoversSleeps(c, env, n - 1);
      FewSleeps(c, n - 1);
    }
  }

  /** The loop's variables. */
  datatype Wait = Wait(stable: nat, previous: Option<nat>, requested: seq<Work>, delay: nat, elapsed: nat)

  ghost predicate WaitAt(c: Config, env: Polls, n: nat, w: Wait) {
    && Waited(c, env, n)
    && w.stable == Min(StableFor(env, n), U32_MAX)
    && w.previous == (if n == 0 then None else Some(EmailsAt(env, n - 1)))
    && Asked(c, env, n, w.requested)
    && w.delay == SleepAt(c, n)
    && w.elapsed == Clock(c, env, n)
  }

  /** How the n-th poll can end the wait. */
  ghost predicate EndsAt(c: Config, env: Polls, n: nat, outcome: Outcome, w: Wait) {
    && Waited(c, env, n)
    && match outcome
       case Skipped => false
       case LoadFailed => env(n).snapshot.None?
       case Ready => Loaded(env, n + 1) && ReadyAt(c, env, n) && Asked(c, env, n + 1, w.requested)
                     && w.stable == Min(StableFor(env, n + 1), U32_MAX)
       case TimedOut => Loaded(env, n + 1) && !ReadyAt(c, env, n) && CheckedAt(c, env, n) >= c.maxWait
                        && Asked(c, env, n + 1, w.requested) && w.stable == Min(StableFor(env, n + 1), U32_MAX)
  }

  /** At most one end fits an environment: the first poll that is ready, late, or cannot be loaded. */
  lemma EndIsUnique(c: Config, env: Polls, n: nat, outcome: Outcome, w: Wait, n': nat, outcome': Outcome, w': Wait)
    requires EndsAt(c, env, n, outcome, w) && EndsAt(c, env, n', outcome', w')
    ensures n == n' && outcome == outcome'
  {
    NoneEarlier(c, env, n, outcome, w, n');
    NoneEarlier(c, env, n', outcome', w', n);
  }

  lemma NoneEarlier(c: Config, env: Polls, n: nat, outcome: Outcome, w: Wait, later: nat)
    requires EndsAt(c, env, n, outcome, w) && Waited(c, env, later)
    ensures later <= n
  {
    if n < later { NotOverYet(c, env, n, outcome, w); }
  }

  lemma NotOverYet(c: Config, env: Polls, n: nat, outcome: Outcome, w: Wait)
    requires EndsAt(c, env, n, outcome, w)
    ensures !PollOver(c, env, n)
  {
  }

  lemma ReadyAsksNothing(c: Config, env: Polls, n: nat, requested: seq<Work>)
    requires Loaded(env, n + 1) && !HasBacklog(env(n).snapshot.value) && Asked(c, env, n, requested)
    ensures Asked(c, env, n + 1, requested)
  {
    BacklogIffWorkToRequest(env(n).snapshot.value);
    assert Wanted(env, n + 1) == Wanted(env, n);
  }

  /** The loop's body up to the sleep, and the sleep itself unless the wait is over. */
  method PollOnce(c: Config, chatTask: bool, env: Polls, n: nat, before: Wait)
    returns (outcome: Option<Outcome>, slept: nat, w: Wait)
    requires ValidConfig(c) && !chatTask && WaitAt(c, env, n, before)
    ensures outcome.Some? ==> EndsAt(c, env, n, outcome.value, w)
    ensures outcome.None? ==> WaitAt(c, env, n + 1, w) && slept == SleepAt(c, n)
    ensures outcome.None? ==> before.elapsed < c.maxWait && w.elapsed > before.elapsed
  {
    w, slept := before, 0;
    if env(n).snapshot.None? { return Some(LoadFailed), 0, w; }
    var snapshot := env(n).snapshot.value;
    var stable := CountStable(w.stable, w.previous, snapshot.emails, env, n);
    w := w.(stable := stable, previous := Some(snapshot.emails));
    if !HasBacklog(snapshot) && w.stable >= c.stableRequired {
      ReadyAsksNothing(c, env, n, w.requested);
      return Some(Ready), 0, w;
    }
    outcome, slept, w := AskAndSleep(c, chatTask, env, n, snapshot, w);
  }

  /** What happens in a poll that is not ready. */
  method AskAndSleep(c: Config, chatTask: bool, env: Polls, n: nat, snapshot: Snapshot, before: Wait)
    returns (outcome: Option<Outcome>, slept: nat, w: Wait)
    requires ValidConfig(c) && !chatTask && Waited(c, env, n)
    requires env(n).snapshot == Some(snapshot) && Loaded(env, n + 1) && !ReadyAt(c, env, n)
    requires before.stable == Min(StableFor(env, n + 1), U32_MAX) && before.previous == Some(snapshot.emails)
    requires Asked(c, env, n, before.requested) && before.delay == SleepAt(c, n) && before.elapsed == Clock(c, env, n)
    ensures outcome.Some? ==> EndsAt(c, env, n, outcome.value, w)
    ensures outcome.None? ==> WaitAt(c, env, n + 1, w) && slept == SleepAt(c, n)
    ensures outcome.None? ==> before.elapsed < c.maxWait && w.elapsed > before.elapsed
  {
    slept := 0;
    var requested := AskForMissing(c, snapshot, before.requested, env, n);
    w := before.(requested := requested, elapsed := before.elapsed + env(n).took);
    if w.elapsed >= c.maxWait {
      if chatTask { assert false; }
      return Some(TimedOut), 0, w;
    }
    NextSleep(c, n);
    OneMoreWaited(c, env, n);
    slept := w.delay;
    w := w.(elapsed := w.elapsed + slept + env(n).late, delay := Min(Min(w.delay * 2, DURATION_MAX), c.maxBackoff));
    outcome := None;
  }

  lemma OneMoreWaited(c: Config, env: Polls, n: nat)
    requires Waited(c, env, n) && Loaded(env, n + 1) && !ReadyAt(c, env, n) && CheckedAt(c, env, n) < c.maxWait
    ensures Waited(c, env, n + 1)
    ensures Clock(c, env, n + 1) == CheckedAt(c, env, n) + SleepAt(c, n) + env(n).late
  {
    assert PollOver(c, env, n);
  }

  /**
   * The gate of a run. It covers the mail assistant only, whose chat tasks never wait; so the branch
   * that answers a chat task with a pending result after the deadline is dead.
   */
  method WaitForDbCompleteness(c: Config, mailAssistant: bool, chatTask: bool, env: Polls)
    returns (outcome: Outcome, n: nat, w: Wait, sleeps: seq<nat>)
    requires ValidConfig(c)
    ensures outcome.Skipped? <==> !c.enabled || !mailAssistant || chatTask
    ensures !outcome.Skipped? ==> EndsAt(c, env, n, outcome, w) && sleeps == Sleeps(c, n)
    ensures n <= CeilDiv(c.maxWait, c.initial)
  {
    n, sleeps, w := 0, [], Wait(0, None, [], c.initial, 0);
    if !(c.enabled && mailAssistant) { return Skipped, 0, w, []; }
    if mailAssistant && chatTask { return Skipped, 0, w, []; }
    assert Pow2(0) == 1;
    while true
      invariant WaitAt(c, env, n, w) && sleeps == Sleeps(c, n)
      decreases SatSub(c.maxWait, w.elapsed)
    {
      WaitedIsBounded(c, env, n);
      var slept;
      var over: Option<Outcome>;
      over, slept, w := PollOnce(c, chatTask, env, n, w);
      if over.Some? { return over.value, n, w, sleeps; }
      sleeps := sleeps + [slept];
      n := n + 1;
    }
  }

  /** The last poll ends the wait exactly when it calls for no work and as many equal counts as required lie behind. */
  lemma ReadyIffStable(c: Config, env: Polls, n: nat)
    requires ValidConfig(c) && n > 0 && Loaded(env, n)
    ensures ReadyAt(c, env, n - 1) <==>
      && Classify(env(n - 1).snapshot.value) == []
      && n >= c.stableRequired && SameEmails(env, n, c.stableRequired)
  {
    BacklogIffWorkToRequest(env(n - 1).snapshot.value);
    StableForIsLongest(env, n, 0);
    if n >= c.stableRequired { StableForIsLongest(env, n, c.stableRequired); }
  }
}
