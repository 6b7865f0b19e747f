/** The interval limiter in front of the providers. Times are nanoseconds. */
module RateLimiter {
  import opened Common
  import opened Doubles
  import opened RequestRate

  /** The clock, the field next_allowed, and the instants at which callers were let through. */
  datatype Limiter = Limiter(now: nat, nextAllowed: nat, grants: seq<nat>)

  function New(now: nat): Limiter { Limiter(now, now, []) }

  /** Some caller takes the lock, this long after the last one did. */
  function Attempt(s: Limiter, interval: nat, advance: nat): Limiter {
    var now := s.now + advance;
    if s.nextAllowed <= now then Limiter(now, now + interval, s.grants + [now]) else s.(now := now)
  }

  function Exec(s: Limiter, interval: nat, run: seq<nat>): Limiter {
    if run == [] then s else Attempt(Exec(s, interval, run[..|run| - 1]), interval, run[|run| - 1])
  }

  ghost predicate Spaced(grants: seq<nat>, interval: nat) {
    forall i :: 0 < i < |grants| ==> grants[i] - grants[i - 1] >= interval
  }

  ghost predicate Inv(s: Limiter, interval: nat) {
    && Spaced(s.grants, interval)
    && (s.grants != [] ==> s.nextAllowed == s.grants[|s.grants| - 1] + interval)
  }

  lemma {:induction false} RunKeepsInv(start: nat, interval: nat, run: seq<nat>)
    ensures Inv(Exec(New(start), interval, run), interval)
  {
    if run != [] { RunKeepsInv(start, interval, run[..|run| - 1]); }
  }

  /** Any two grants are as many intervals apart as there are grants from one to the other. */
  lemma {:induction false} GrantsAreApart(grants: seq<nat>, interval: nat, i: nat, j: nat)
    requires Spaced(grants, interval) && i <= j < |grants|
    ensures grants[i] + (j - i) * interval <= grants[j]
    decreases j
  {
    if i < j {
      GrantsAreApart(grants, interval, i, j - 1);
      assert (j - i) * interval == (j - 1 - i) * interval + interval;
    }
  }

  /** Under any schedule of callers, n grants from the i-th on span at least n - 1 intervals. */
  lemma SpanOfGrants(start: nat, interval: nat, run: seq<nat>, i: nat, n: nat)
    requires n > 0 && i + n <= |Exec(New(start), interval, run).grants|
    ensures var g := Exec(New(start), interval, run).grants;
            g[i] + (n - 1) * interval <= g[i + n - 1]
  {
    RunKeepsInv(start, interval, run);
    GrantsAreApart(Exec(New(start), interval, run).grants, interval, i, i + n - 1);
  }

  // Grants in a half-open window ----------------------------------------------------------------

  /** How many grants fall at or after lo and before lo + width. */
  function Count(grants: seq<nat>, lo: nat, width: nat): nat {
    if grants == [] then 0
    else
      var last := |grants| - 1;
      Count(grants[..last], lo, width) + if lo <= grants[last] < lo + width then 1 else 0
  }

  lemma {:induction false} CountIsSpaced(grants: seq<nat>, interval: nat, lo: nat, width: nat)
    requires Spaced(grants, interval)
    ensures var n := Count(grants, lo, width);
            n > 0 ==> (n - 1) * interval <= Min(grants[|grants| - 1], lo + width - 1) - lo
  {
    if grants != [] {
      var last := |grants| - 1;
      var m := Count(grants[..last], lo, width);
      CountIsSpaced(grants[..last], interval, lo, width);
      if m > 0 {
        assert grants[last] - grants[last - 1] >= interval;
        assert m * interval == (m - 1) * interval + interval;
      }
    }
  }

  /** Attempts one interval apart. */
  function Steady(interval: nat, n: nat): seq<nat> {
    if n == 0 then [] else Steady(interval, n - 1) + [if n == 1 then 0 else interval]
  }

  lemma SteadyStep(start: nat, interval: nat, n: nat)
    requires n > 0
    ensures Exec(New(start), interval, Steady(interval, n))
         == Attempt(Exec(New(start), interval, Steady(interval, n - 1)), interval, if n == 1 then 0 else interval)
  {
    assert Steady(interval, n)[..|Steady(interval, n)| - 1] == Steady(interval, n - 1);
  }

  /** So many intervals. */
  function Span(n: nat, interval: nat): nat { if n == 0 then 0 else Span(n - 1, interval) + interval }

  lemma {:induction false} SpanIs(n: nat, interval: nat)
    ensures Span(n, interval) == n * interval
  {
    if n > 0 {
      SpanIs(n - 1, interval);
      OneMore(n - 1, interval);
    }
  }

  lemma {:induction false} SteadyIsGranted(start: nat, interval: nat, n: nat)
    requires n > 0
    ensures var s := Exec(New(start), interval, Steady(interval, n));
            s.now == start + Span(n - 1, interval) && s.nextAllowed == s.now + interval
    ensures Exec(New(start), interval, Steady(interval, n)).grants
         == Exec(New(start), interval, Steady(interval, n - 1)).grants + [start + Span(n - 1, interval)]
  {
    SteadyStep(start, interval, n);
    if n > 1 {
      SteadyIsGranted(start, interval, n - 1);
    } else {
      assert Steady(interval, 0) == [] && Exec(New(start), interval, []) == New(start);
    }
  }

  lemma {:induction false} SteadyCount(start: nat, interval: nat, n: nat, width: nat)
    requires n > 0 ==> Span(n - 1, interval) < width
    ensures Count(Exec(New(start), interval, Steady(interval, n)).grants, start, width) == n
  {
    if n > 0 {
      SteadyIsGranted(start, interval, n);
      SteadyCount(start, interval, n - 1, width);
      CountSnoc(Exec(New(start), interval, Steady(interval, n - 1)).grants, start + Span(n - 1, interval), start, width);
    }
  }

  lemma CountSnoc(grants: seq<nat>, last: nat, lo: nat, width: nat)
    ensures Count(grants + [last], lo, width) == Count(grants, lo, width) + if lo <= last < lo + width then 1 else 0
  {
    assert (grants + [last])[..|grants|] == grants;
  }

  /** No schedule of callers puts more than limit grants into any window of this width. */
  ghost predicate NeverMoreThan(limit: nat, interval: nat, width: nat) {
    forall start, run, lo :: Count(Exec(New(start), interval, run).grants, lo, width) <= limit
  }

  /** The exact bound: limit grants a window, no more, in all runs, if and only if limit intervals fill the window. */
  lemma BoundIsExact(limit: nat, interval: nat, width: nat)
    ensures NeverMoreThan(limit, interval, width) <==> limit * interval >= width
  {
    if limit * interval >= width {
      forall start, run, lo ensures Count(Exec(New(start), interval, run).grants, lo, width) <= limit {
        var g := Exec(New(start), interval, run).grants;
        RunKeepsInv(start, interval, run);
        CountIsSpaced(g, interval, lo, width);
        var n := Count(g, lo, width);
        if n > limit { Fewer(limit, n - 1, interval); }
      }
    } else {
      SpanIs(limit, interval);
      SteadyCount(0, interval, limit + 1, width);
      assert Count(Exec(New(0), interval, Steady(interval, limit + 1)).grants, 0, width) > limit;
    }
  }

  lemma Fewer(a: nat, b: nat, interval: nat)
    requires a <= b
    ensures a * interval <= b * interval
  {
    assert b * interval == a * interval + (b - a) * interval;
  }

  // Requests per minute -------------------------------------------------------------------------

  /**
   * The configured rate is kept in every half-open minute exactly when the interval is not rounded down:
   * the rate divides a minute of nanoseconds, or the rest is more than half the rate, or it is exactly
   * half and the double quotient lies above that tie, or on it with the even nanosecond above.
   */
  lemma RateIsKeptIff(rate: nat)
    requires rate > 0
    ensures NeverMoreThan(rate, MinInterval(rate), MINUTE) <==> NotRoundedDown(rate)
  {
    BoundIsExact(rate, MinInterval(rate), MINUTE);
    FillsMinuteIff(rate);
  }

  /** At 7 requests per minute an eighth fits into a minute. */
  lemma SevenPerMinuteIsExceeded()
    ensures !NeverMoreThan(7, MinInterval(7), MINUTE)
  {
    RateIsKeptIff(7);
  }

  /**
   * At 102400 the exact interval is a tie whose even nanosecond lies above, but the double quotient lies
   * below it: the rate is exceeded. At 307200 it is the other way about, and the rate is kept.
   */
  lemma TiesGoWithTheDouble()
    ensures IsTie(102400) && MINUTE / 102400 % 2 == 1 && !NeverMoreThan(102400, MinInterval(102400), MINUTE)
    ensures IsTie(307200) && MINUTE / 307200 % 2 == 0 && NeverMoreThan(307200, MinInterval(307200), MINUTE)
  {
    TieKeptIff(102400, 585937);
    TieKeptIff(307200, 195312);
    QuotientsAtTies();
  }

  lemma TieKeptIff(rate: nat, q: nat)
    requires rate > 0 && 2 * MINUTE == 2 * (q * rate) + rate
    ensures IsTie(rate) && MINUTE / rate == q
    ensures NeverMoreThan(rate, MinInterval(rate), MINUTE) <==> TieGoesUp(rate)
  {
    DivModIs(MINUTE, rate, q);
    RateIsKeptIff(rate);
  }

  /** One request more than the rate is never exceeded, for rates up to the square root of a minute (about 244948). */
  lemma OneMoreIsNeverExceeded(rate: nat)
    requires 0 < rate <= MINUTE / rate
    ensures NeverMoreThan(rate + 1, MinInterval(rate), MINUTE)
  {
    BoundIsExact(rate + 1, MinInterval(rate), MINUTE);
    IntervalIsNearest(rate);
    var q, r := MINUTE / rate, MINUTE % rate;
    DivMod(MINUTE, rate);
    EnoughForOneMore(rate, q, r, MINUTE, MinInterval(rate));
  }

  lemma EnoughForOneMore(rate: nat, q: nat, r: nat, width: nat, interval: nat)
    requires width == q * rate + r && r < rate <= q <= interval
    ensures (rate + 1) * interval >= width
  {
    Commutes(rate + 1, interval);
    Times(q, interval, rate + 1);
    assert q * (rate + 1) == q * rate + q;
  }

  // The limiter itself ----------------------------------------------------------------------------

  /** Others' attempts while this caller sleeps, and how late it wakes. */
  datatype Sleep = Sleep(others: seq<nat>, late: nat)

  class RateLimiter {
    const minInterval: nat
    var nextAllowed: nat
    /** The monotonic clock when last read. */
    var clock: nat
    /** What has happened so far. */
    ghost var s: Limiter

    constructor (requestsPerMinute: nat, now: nat)
      requires requestsPerMinute > 0
      ensures minInterval == MinInterval(requestsPerMinute) && s == New(now) && Valid()
    {
      minInterval, nextAllowed, clock, s := MinInterval(requestsPerMinute), now, now, New(now);
    }

    ghost predicate Valid()
      reads this
    {
      nextAllowed == s.nextAllowed && clock == s.now
    }

    /** The locked part: none when let through, else how long to sleep. */
    method Check(advance: nat) returns (sleepFor: Option<nat>)
      requires Valid()
      modifies this
      ensures Valid() && s == Attempt(old(s), minInterval, advance)
      ensures sleepFor.None? <==> s.grants == old(s).grants + [s.now]
      ensures sleepFor.Some? ==> s.grants == old(s).grants && s.now + sleepFor.value == s.nextAllowed
    {
      s := Attempt(s, minInterval, advance);
      var now := clock + advance;
      clock := now;
      if nextAllowed <= now {
        nextAllowed := now + minInterval;
        sleepFor := None;
      } else {
        sleepFor := Some(nextAllowed - now);
      }
    }

    /** While this caller sleeps others come, and then it wakes, not before the delay is over. */
    method DozeOff(delay: nat, sleep: Sleep) returns (advance: nat, ghost others: seq<nat>)
      requires Valid()
      modifies this
      ensures Valid() && s == Exec(old(s), minInterval, others) && others == sleep.others
      ensures s.now + advance >= old(s).now + delay
    {
      ghost var before := s;
      var elapsed := 0;
      others := [];
      for i := 0 to |sleep.others|
        invariant Valid() && others == sleep.others[..i] && s == Exec(before, minInterval, others)
        invariant s.now == before.now + elapsed
      {
        assert (others + [sleep.others[i]])[..|others|] == others;
        var _ := Check(sleep.others[i]);
        others := others + [sleep.others[i]];
        elapsed := elapsed + sleep.others[i];
      }
      advance := (if elapsed < delay then delay - elapsed else 0) + sleep.late;
    }

    /**
     * The caller's loop, as far as the given sleeps go. Whatever others do, what happens is a run of
     * attempts, and a caller nobody was let through before during its first sleep is served on waking.
     */
    method Acquire(advance: nat, sleeps: seq<Sleep>) returns (granted: bool, ghost run: seq<nat>)
      requires Valid()
      modifies this
      ensures Valid() && s == Exec(old(s), minInterval, run)
      ensures granted ==> s.grants != [] && s.grants[|s.grants| - 1] == s.now
      ensures sleeps != [] && sleeps[0].others == [] ==> granted
    {
      ghost var before := s;
      run := [advance];
      assert run[..0] == [];
      var sleepFor := Check(advance);
      var i := 0;
      while i < |sleeps| && sleepFor.Some?
        invariant i <= |sleeps| && Valid() && s == Exec(before, minInterval, run)
        invariant sleepFor.Some? ==> s.now + sleepFor.value == s.nextAllowed
        invariant sleepFor.None? ==> s.grants != [] && s.grants[|s.grants| - 1] == s.now
        invariant i > 0 && sleeps[0].others == [] ==> sleepFor.None?
      {
        var again, others := DozeOff(sleepFor.value, sleeps[i]);
        ExecJoin(before, minInterval, run, others);
        run := run + others + [again];
        assert run[..|run| - 1] == run[..|run| - 1 - |others|] + others;
        sleepFor := Check(again);
        i := i + 1;
      }
      granted := sleepFor.None?;
    }
  }

  /** RateLimiter::new: a rate of zero means no limiter. */
  method Create(requestsPerMinute: nat, now: nat) returns (limiter: RateLimiter?)
    ensures limiter == null <==> requestsPerMinute == 0
    ensures limiter != null ==>
      fresh(limiter) && limiter.Valid() && limiter.s == New(now) && limiter.minInterval == MinInterval(requestsPerMinute)
  {
    if requestsPerMinute == 0 { return null; }
    limiter := new RateLimiter(requestsPerMinute, now);
  }

  lemma {:induction false} ExecJoin(s: Limiter, interval: nat, a: seq<nat>, b: seq<nat>)
    ensures Exec(s, interval, a + b) == Exec(Exec(s, interval, a), interval, b)
  {
    if b == [] {
      assert a + b == a;
    } else {
      assert (a + b)[..|a + b| - 1] == a + b[..|b| - 1];
      ExecJoin(s, interval, a, b[..|b| - 1]);
    }
  }
}
