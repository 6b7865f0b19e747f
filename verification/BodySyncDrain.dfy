/** How much work a drain can still do, and runs that do as much as the bounds allow. */
module BodySyncDrain {
  import opened Common
  import opened BodySyncQueue
  import opened BodySyncProtocol

  /** Steps of a drain: no enqueueing and no stale reset. */
  predicate DrainStep(step: Step) { !step.Enqueue? && !step.ResetStale? }

  predicate DrainOnly(steps: seq<Step>) { forall i :: 0 <= i < |steps| ==> DrainStep(steps[i]) }

  /** Held attempt numbers of the row that a retry report would make claimable again. */
  function Retryable(c: Config, held: set<Ticket>, id: nat): set<int> {
    set v | v in Range(1, c.maxAttempts) && v >= 1 && Ticket(id, v) in held
  }

  /** The claims a row can still give: none once nothing can make it claimable. */
  function ClaimsLeft(c: Config, s: Sys, id: nat): nat {
    if id !in s.rows then 0
    else
      var r := s.rows[id];
      var n := Avail(r) + |Retryable(c, s.book.held, id)|;
      if n == 0 then 0 else n + Max(0, c.maxAttempts - 1 - r.attempts)
  }

  function Sum(xs: seq<nat>): nat {
    if xs == [] then 0 else Sum(xs[..|xs| - 1]) + xs[|xs| - 1]
  }

  /** The claims all rows together can still give. */
  function Potential(c: Config, s: Sys): nat {
    Sum(seq(s.nextId, id requires 0 <= id => ClaimsLeft(c, s, id)))
  }

  /** A waiting row nobody holds gives max(1, maxAttempts - attempts) claims. */
  lemma ClaimsLeftOfWaiting(c: Config, s: Sys, id: nat)
    requires id in s.rows && Unheld(s, id)
    ensures ClaimsLeft(c, s, id) == if Waiting(s.rows[id]) then Max(1, c.maxAttempts - s.rows[id].attempts) else 0
  {
    assert Retryable(c, s.book.held, id) == {};
  }

  lemma ClaimUsesUp(c: Config, s: Sys, step: Step, id: nat)
    requires Sound(s) && step.Claim? && id in s.rows
    ensures ClaimsLeft(c, Next(c, s, step), id)
          + (if id in ClaimSet(s.rows, step.account, s.now, step.limit, step.locked) then 1 else 0)
         <= ClaimsLeft(c, s, id)
  {
    RowAfter(c, s, step, id);
    if id in ClaimSet(s.rows, step.account, s.now, step.limit, step.locked) {
      ClaimedRetryable(c, s, step, id);
    } else {
      UnclaimedRetryable(c, s, step, id);
    }
  }

  /** A claim adds its own ticket to those that could make the row claimable again, unless it is the last. */
  lemma ClaimedRetryable(c: Config, s: Sys, step: Step, id: nat)
    requires Sound(s) && step.Claim? && id in s.rows
    requires id in ClaimSet(s.rows, step.account, s.now, step.limit, step.locked)
    ensures |Retryable(c, Next(c, s, step).book.held, id)|
         == |Retryable(c, s.book.held, id)| + if s.rows[id].attempts + 1 < c.maxAttempts then 1 else 0
  {
    RowAfter(c, s, step, id);
    var s' := Next(c, s, step);
    var a' := s.rows[id].attempts + 1;
    forall v: nat ensures Ticket(id, v) in s'.book.held <==> Ticket(id, v) in s.book.held || v == a' {}
    assert Ticket(id, a') !in s.book.held;
    assert Retryable(c, s'.book.held, id) == Retryable(c, s.book.held, id) + if a' < c.maxAttempts then {a' as int} else {};
  }

  lemma UnclaimedRetryable(c: Config, s: Sys, step: Step, id: nat)
    requires Sound(s) && step.Claim? && id in s.rows
    requires id !in ClaimSet(s.rows, step.account, s.now, step.limit, step.locked)
    ensures Retryable(c, Next(c, s, step).book.held, id) == Retryable(c, s.book.held, id)
  {
    var s' := Next(c, s, step);
    forall v: nat ensures Ticket(id, v) in s'.book.held <==> Ticket(id, v) in s.book.held {}
  }

  lemma TicketSpent(c: Config, held: set<Ticket>, t: Ticket)
    requires t in held && 1 <= t.attempt < c.maxAttempts
    ensures |Retryable(c, held, t.id)| == |Retryable(c, held - {t}, t.id)| + 1
  {
    assert Retryable(c, held, t.id) == Retryable(c, held - {t}, t.id) + {t.attempt as int};
  }

  lemma FewerRetryable(c: Config, held: set<Ticket>, held': set<Ticket>, id: nat)
    requires held' <= held
    ensures |Retryable(c, held', id)| <= |Retryable(c, held, id)|
  {
    SubsetSize(Retryable(c, held', id), Retryable(c, held, id));
  }

  lemma RetryUsesUp(c: Config, s: Sys, step: Step, id: nat)
    requires Sound(s) && Enabled(s, step) && id in s.rows && step.ReportRetry?
    ensures ClaimsLeft(c, Next(c, s, step), id) <= ClaimsLeft(c, s, id)
  {
    var t := step.ticket;
    if t.id == id && t.attempt < c.maxAttempts {
      TicketSpent(c, s.book.held, t);
    } else {
      FewerRetryable(c, s.book.held, s.book.held - {t}, id);
    }
  }

  lemma OtherUsesUp(c: Config, s: Sys, step: Step, id: nat)
    requires id in s.rows && (step.ReportDone? || step.Forget? || step.Tick?)
    ensures ClaimsLeft(c, Next(c, s, step), id) <= ClaimsLeft(c, s, id)
  {
    FewerRetryable(c, s.book.held, Next(c, s, step).book.held, id);
  }

  function CountIn(ids: set<nat>, n: nat): nat {
    if n == 0 then 0 else CountIn(ids, n - 1) + (if n - 1 in ids then 1 else 0)
  }

  lemma {:induction false} CountInIsSize(ids: set<nat>, n: nat)
    requires forall i :: i in ids ==> i < n
    ensures CountIn(ids, n) == |ids|
  {
    if n > 0 {
      var rest := ids - {n - 1};
      CountInIsSize(rest, n - 1);
      CountInIgnoresTop(ids, n - 1);
      if n - 1 in ids {
        assert ids == rest + {n - 1};
      } else {
        assert ids == rest;
      }
    } else {
      assert ids == {};
    }
  }

  lemma {:induction false} CountInIgnoresTop(ids: set<nat>, n: nat)
    ensures forall k: nat :: k >= n ==> CountIn(ids - {k}, n) == CountIn(ids, n)
  {
    if n > 0 {
      CountInIgnoresTop(ids, n - 1);
    }
  }

  lemma {:induction false} SumDominates(xs: seq<nat>, ys: seq<nat>, ids: set<nat>)
    requires |xs| == |ys|
    requires forall i :: 0 <= i < |xs| ==> ys[i] + (if i in ids then 1 else 0) <= xs[i]
    ensures Sum(ys) + CountIn(ids, |xs|) <= Sum(xs)
  {
    if xs != [] {
      SumDominates(xs[..|xs| - 1], ys[..|xs| - 1], ids);
    }
  }

  lemma RowUsesUp(c: Config, s: Sys, step: Step, id: nat)
    requires Sound(s) && Enabled(s, step) && DrainStep(step)
    ensures ClaimsLeft(c, Next(c, s, step), id)
          + (if step.Claim? && id in ClaimSet(s.rows, step.account, s.now, step.limit, step.locked) then 1 else 0)
         <= ClaimsLeft(c, s, id)
  {
    if id in s.rows {
      match step
      case Claim(_, _, _, _) => ClaimUsesUp(c, s, step, id);
      case ReportRetry(_, _) => RetryUsesUp(c, s, step, id);
      case _ => OtherUsesUp(c, s, step, id);
    }
  }

  /** With nobody holding a ticket, the potential is the sum of max(1, maxAttempts - attempts) over waiting rows. */
  lemma PotentialWhenIdle(c: Config, s: Sys)
    requires s.book.held == {}
    ensures Potential(c, s) == Sum(seq(s.nextId, id requires 0 <= id =>
              if id in s.rows && Waiting(s.rows[id]) then Max(1, c.maxAttempts - s.rows[id].attempts) else 0))
  {
    forall id: nat ensures ClaimsLeft(c, s, id)
        == if id in s.rows && Waiting(s.rows[id]) then Max(1, c.maxAttempts - s.rows[id].attempts) else 0
    {
      if id in s.rows { ClaimsLeftOfWaiting(c, s, id); }
    }
    assert seq(s.nextId, id requires 0 <= id => ClaimsLeft(c, s, id))
        == seq(s.nextId, id requires 0 <= id =>
             if id in s.rows && Waiting(s.rows[id]) then Max(1, c.maxAttempts - s.rows[id].attempts) else 0);
  }

  /** A drain step pays for every row it claims. */
  lemma StepUsesUp(c: Config, s: Sys, step: Step)
    requires Sound(s) && Enabled(s, step) && DrainStep(step)
    ensures var s' := Next(c, s, step);
            s'.nextId == s.nextId && s'.book.claims - s.book.claims + Potential(c, s') <= Potential(c, s)
  {
    var s' := Next(c, s, step);
    var ids := if step.Claim? then ClaimSet(s.rows, step.account, s.now, step.limit, step.locked) else {};
    forall id: nat | id < s.nextId
      ensures ClaimsLeft(c, s', id) + (if id in ids then 1 else 0) <= ClaimsLeft(c, s, id)
    {
      RowUsesUp(c, s, step, id);
    }
    SumDominates(seq(s.nextId, id requires 0 <= id => ClaimsLeft(c, s, id)),
                 seq(s.nextId, id requires 0 <= id => ClaimsLeft(c, s', id)), ids);
    CountInIsSize(ids, s.nextId);
  }

  /** While nobody enqueues or resets, all workers together claim no more than the potential. */
  lemma {:induction false} DrainClaimsBounded(c: Config, s: Sys, steps: seq<Step>)
    requires Sound(s) && Legal(c, s, steps) && DrainOnly(steps)
    ensures var s' := Exec(c, s, steps);
            && Sound(s')
            && s.book.claims <= s'.book.claims
            && s'.book.claims - s.book.claims + Potential(c, s') <= Potential(c, s)
    decreases |steps|
  {
    if steps != [] {
      StepKeepsSound(c, s, steps[0]);
      StepUsesUp(c, s, steps[0]);
      DrainClaimsBounded(c, Next(c, s, steps[0]), steps[1..]);
    }
  }

  // Runs one after another --------------------------------------------------------------------

  lemma {:induction false} ExecConcat(c: Config, s: Sys, a: seq<Step>, b: seq<Step>)
    ensures Exec(c, s, a + b) == Exec(c, Exec(c, s, a), b)
    ensures Legal(c, s, a + b) <==> Legal(c, s, a) && Legal(c, Exec(c, s, a), b)
    decreases |a|
  {
    if a == [] {
      assert a + b == b;
    } else {
      assert (a + b)[1..] == a[1..] + b;
      ExecConcat(c, Next(c, s, a[0]), a[1..], b);
    }
  }

  // The attempt bound is reached --------------------------------------------------------------

  /** The table holds one row, waiting and due, that nobody holds. */
  predicate Due(s: Sys, id: nat) {
    s.rows.Keys == {id} && Waiting(s.rows[id]) && s.rows[id].availableAt <= s.now && s.book.held == {}
  }

  predicate DeadAlone(s: Sys, id: nat) {
    s.rows.Keys == {id} && s.rows[id].status.Dead? && s.book.held == {}
  }

  lemma ExecThree(c: Config, s: Sys, a: Step, b: Step, d: Step)
    ensures var s3 := Next(c, Next(c, Next(c, s, a), b), d);
            Exec(c, s, [a, b, d]) == s3
    ensures Enabled(s, a) && Enabled(Next(c, s, a), b) && Enabled(Next(c, Next(c, s, a), b), d) ==> Legal(c, s, [a, b, d])
  {
    var s1 := Next(c, s, a);
    var s2 := Next(c, s1, b);
    var s3 := Next(c, s2, d);
    assert [a, b, d][1..] == [b, d] && [b, d][1..] == [d] && [d][1..] == [];
    assert Exec(c, s3, []) == s3 && Legal(c, s3, []);
    assert Exec(c, s2, [d]) == s3 && (Enabled(s2, d) ==> Legal(c, s2, [d]));
    assert Exec(c, s1, [b, d]) == s3;
  }

  /** Claim, fail, wait: one more attempt, and the row is due again or dead. */
  lemma FailOnce(c: Config, s: Sys, id: nat) returns (steps: seq<Step>)
    requires Due(s, id)
    ensures Legal(c, s, steps)
    ensures var s' := Exec(c, s, steps);
            && (Due(s', id) || DeadAlone(s', id))
            && (DeadAlone(s', id) <==> s.rows[id].attempts + 1 >= c.maxAttempts)
            && s'.rows[id].attempts == s.rows[id].attempts + 1
            && s'.book.revived == s.book.revived
  {
    var account, t := s.rows[id].key.account, Ticket(id, s.rows[id].attempts + 1);
    var claim := Claim(account, "w", 1, {});
    var report := ReportRetry(account, t);
    var wait := Tick(Max(Backoff(c, t.attempt), 0));
    steps := [claim, report, wait];
    ExecThree(c, s, claim, report, wait);
    OnlyOneIsClaimed(s, id);
    var s1 := Next(c, s, claim);
    assert s1.book.held == {t};
    var s2 := Next(c, s1, report);
    assert s2.book.held == {};
  }

  lemma OnlyOneIsClaimed(s: Sys, id: nat)
    requires Due(s, id)
    ensures ClaimSet(s.rows, s.rows[id].key.account, s.now, 1, {}) == {id}
  {
    var e := Eligible(s.rows, s.rows[id].key.account, s.now, {});
    assert e == {id};
    assert Ahead(s.rows, e, id) == {};
  }

  lemma {:induction false} FailUntilDead(c: Config, s: Sys, id: nat) returns (steps: seq<Step>)
    requires Due(s, id) && s.rows[id].attempts < c.maxAttempts
    ensures Legal(c, s, steps)
    ensures var s' := Exec(c, s, steps);
            && DeadAlone(s', id)
            && s'.rows[id].attempts == c.maxAttempts
            && s'.book.revived == s.book.revived
    decreases c.maxAttempts - s.rows[id].attempts
  {
    steps := FailOnce(c, s, id);
    var s' := Exec(c, s, steps);
    if Due(s', id) {
      var more := FailUntilDead(c, s', id);
      ExecConcat(c, s, steps, more);
      steps := steps + more;
    }
  }

  /** A dead row that is enqueued again can be claimed once more. */
  lemma ReviveAndFail(c: Config, s: Sys, id: nat) returns (steps: seq<Step>)
    requires DeadAlone(s, id) && IdsBelow(s.rows, s.nextId) && s.rows[id].attempts >= c.maxAttempts
    ensures Legal(c, s, steps)
    ensures var s' := Exec(c, s, steps);
            && DeadAlone(s', id)
            && s'.rows[id].attempts == s.rows[id].attempts + 1
            && Count(s'.book.revived, id) == Count(s.book.revived, id) + 1
  {
    var key := s.rows[id].key;
    var enqueue := Enqueue([key]);
    var s' := Next(c, s, enqueue);
    assert key in KeysOf(s.rows);
    NothingUnqueued(s.rows, [key]);
    EnqueuedRow(s.rows, s.nextId, [key], s.now, id);
    assert s'.rows.Keys == {id};
    assert Due(s', id);
    var more := FailOnce(c, s', id);
    assert [enqueue][1..] == [] && Exec(c, s', []) == s' && Legal(c, s', []);
    assert Exec(c, s, [enqueue]) == s' && Legal(c, s, [enqueue]);
    ExecConcat(c, s, [enqueue], more);
    steps := [enqueue] + more;
  }

  lemma EnqueueFirst(c: Config, start: int, key: Key)
    ensures var s := Next(c, Initial(start), Enqueue([key]));
            Due(s, 1) && s.rows[1].attempts == 0 && s.book.revived == map[]
  {
    var s0 := Initial(start);
    assert Unqueued(map[], [key]) == [key];
    assert Ids(1, 1) == {1};
  }

  /** The attempt bound is exact: for every number of revivals some run reaches it. */
  lemma {:induction false} AttemptBoundIsReached(c: Config, start: int, revivals: nat) returns (steps: seq<Step>)
    requires ValidConfig(c)
    ensures Legal(c, Initial(start), steps)
    ensures var s := Exec(c, Initial(start), steps);
            && DeadAlone(s, 1)
            && s.rows[1].attempts == c.maxAttempts + revivals
            && Count(s.book.revived, 1) == revivals
    decreases revivals
  {
    var s0 := Initial(start);
    if revivals == 0 {
      var first := Enqueue([Key("a", "INBOX", 1, 1, "m")]);
      EnqueueFirst(c, start, first.items[0]);
      var s1 := Next(c, s0, first);
      assert [first][1..] == [] && Exec(c, s1, []) == s1 && Legal(c, s1, []);
      assert Exec(c, s0, [first]) == s1 && Legal(c, s0, [first]);
      var more := FailUntilDead(c, s1, 1);
      ExecConcat(c, s0, [first], more);
      steps := [first] + more;
    } else {
      steps := AttemptBoundIsReached(c, start, revivals - 1);
      var s := Exec(c, s0, steps);
      RunKeepsInv(c, s0, steps);
      var more := ReviveAndFail(c, s, 1);
      ExecConcat(c, s0, steps, more);
      steps := steps + more;
    }
  }
}
