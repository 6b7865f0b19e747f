/** The body_sync_queue table: one function per SQL statement, all rows at once. */
module BodySyncQueue {
  import opened Common

  datatype Status = Pending | Failed | Processing | Done | Dead

  /** The columns of the table's uniqueness constraint. */
  datatype Key = Key(account: string, folder: string, uid: int, uidValidity: int, messageId: string)

  datatype Row = Row(
    key: Key,
    status: Status,
    attempts: nat,
    availableAt: int,
    lockedAt: Option<int>,
    worker: Option<string>)

  type Table = map<nat, Row>

  predicate Waiting(r: Row) { r.status.Pending? || r.status.Failed? }

  predicate Claimable(r: Row, account: string, now: int) {
    r.key.account == account && Waiting(r) && r.availableAt <= now
  }

  /** ORDER BY available_at ASC, id ASC. */
  predicate Before(t: Table, i: nat, j: nat)
    requires i in t && j in t
  {
    t[i].availableAt < t[j].availableAt || (t[i].availableAt == t[j].availableAt && i < j)
  }

  /** The rows the inner SELECT of a claim may return; locked rows are skipped. */
  function Eligible(t: Table, account: string, now: int, locked: set<nat>): set<nat> {
    set i | i in t && i !in locked && Claimable(t[i], account, now)
  }

  function Ahead(t: Table, e: set<nat>, i: nat): set<nat>
    requires e <= t.Keys && i in t
  {
    set j | j in e && Before(t, j, i)
  }

  /** The members of e that fewer than limit other members precede. */
  function Leading(t: Table, e: set<nat>, limit: nat): set<nat>
    requires e <= t.Keys
  {
    set i | i in e && |Ahead(t, e, i)| < limit
  }

  function ClaimSet(t: Table, account: string, now: int, limit: nat, locked: set<nat>): set<nat> {
    Leading(t, Eligible(t, account, now, locked), limit)
  }

  function AfterClaim(t: Table, ids: set<nat>, worker: string, now: int): Table {
    map i | i in t ::
      if i in ids
      then t[i].(status := Processing, attempts := t[i].attempts + 1, lockedAt := Some(now), worker := Some(worker))
      else t[i]
  }

  function AfterDone(t: Table, account: string, ids: set<nat>): Table {
    map i | i in t ::
      if i in ids && t[i].key.account == account
      then t[i].(status := Done, lockedAt := None, worker := None)
      else t[i]
  }

  /** The status a report carries depends on the reporter's own attempt number, not on the row's. */
  function ReportStatus(attempt: int, maxAttempts: int): Status {
    if attempt >= maxAttempts then Dead else Failed
  }

  function AfterRetry(t: Table, account: string, id: nat, attempt: int, maxAttempts: int, delay: int, now: int): Table {
    var status := ReportStatus(attempt, maxAttempts);
    map i | i in t ::
      if i == id && t[i].key.account == account
      then t[i].(
          status := status,
          availableAt := if status.Failed? then now + Max(delay, 0) else t[i].availableAt,
          lockedAt := None,
          worker := None)
      else t[i]
  }

  predicate Stale(r: Row, account: string, staleAfter: int, now: int) {
    && r.key.account == account
    && r.status.Processing?
    && r.lockedAt.Some?
    && r.lockedAt.value < now - Max(staleAfter, 1)
  }

  function AfterReset(t: Table, account: string, staleAfter: int, now: int): Table {
    map i | i in t ::
      if Stale(t[i], account, staleAfter, now)
      then t[i].(status := Failed, availableAt := now, lockedAt := None, worker := None)
      else t[i]
  }

  /** ON CONFLICT DO UPDATE: a done row stays, any other becomes pending at once. */
  function Requeued(r: Row, now: int): Row {
    if r.status.Done? then r
    else r.(status := Pending, availableAt := now, lockedAt := None, worker := None)
  }

  function NewRow(key: Key, now: int): Row { Row(key, Pending, 0, now, None, None) }

  function KeysOf(t: Table): set<Key> { set i | i in t :: t[i].key }

  /** The items without a conflicting row, in order. */
  function Unqueued(t: Table, items: seq<Key>): (r: seq<Key>)
    ensures forall k :: k in r <==> k in items && k !in KeysOf(t)
  {
    if items == [] then []
    else (if items[0] in KeysOf(t) then [] else [items[0]]) + Unqueued(t, items[1..])
  }

  /** n consecutive ids from the table's sequence. */
  function Ids(from: nat, n: nat): (ids: set<nat>)
    ensures forall i :: i in ids <==> from <= i < from + n
  {
    if n == 0 then {} else Ids(from, n - 1) + {from + n - 1}
  }

  function AfterEnqueue(t: Table, nextId: nat, items: seq<Key>, now: int): Table {
    var added := Unqueued(t, items);
    map i | i in t.Keys + Ids(nextId, |added|) ::
      if i in t then (if t[i].key in items then Requeued(t[i], now) else t[i])
      else NewRow(added[i - nextId], now)
  }

  predicate DistinctKeys(items: seq<Key>) {
    forall i, j :: 0 <= i < j < |items| ==> items[i] != items[j]
  }

  /** Ids come from the table's sequence. */
  predicate IdsBelow(t: Table, nextId: nat) { forall i :: i in t ==> i < nextId }

  /** The uniqueness constraint. */
  predicate KeysUnique(t: Table) {
    forall i, j :: i in t && j in t && t[i].key == t[j].key ==> i == j
  }

  /** u is t with the rows of hit changed, and no other. */
  ghost predicate Changed(t: Table, u: Table, hit: set<nat>, change: Row -> Row) {
    u.Keys == t.Keys && forall i :: i in t ==> u[i] == if i in hit then change(t[i]) else t[i]
  }

  // A claim takes the true head of the queue -------------------------------------------------

  lemma {:induction false} LastExists(t: Table, e: set<nat>) returns (m: nat)
    requires e <= t.Keys && e != {}
    ensures m in e && forall i :: i in e && i != m ==> Before(t, i, m)
  {
    m :| m in e;
    if e != {m} {
      var n := LastExists(t, e - {m});
      if Before(t, m, n) {
        m := n;
      } else {
        forall i | i in e && i != m ensures Before(t, i, m) {
          assert i == n || Before(t, i, n);
        }
      }
    }
  }

  /** Dropping the last member changes nobody else's place. */
  lemma LeadingWithoutLast(t: Table, e: set<nat>, m: nat, limit: nat)
    requires e <= t.Keys && m in e && forall i :: i in e && i != m ==> Before(t, i, m)
    ensures Leading(t, e, limit) == Leading(t, e - {m}, limit) + (if |e| - 1 < limit then {m} else {})
  {
    forall i | i in e && i != m ensures Ahead(t, e, i) == Ahead(t, e - {m}, i) {
      assert !Before(t, m, i);
    }
    assert Ahead(t, e, m) == e - {m};
  }

  /** Leading is the first min(limit, |e|) members of e in queue order. */
  lemma {:induction false} LeadingIsTopK(t: Table, e: set<nat>, limit: nat)
    requires e <= t.Keys
    ensures Leading(t, e, limit) <= e
    ensures |Leading(t, e, limit)| == Min(limit, |e|)
    ensures forall i, j :: i in Leading(t, e, limit) && j in e && j !in Leading(t, e, limit) ==> Before(t, i, j)
    decreases |e|
  {
    if e == {} {
      assert Leading(t, e, limit) == {};
    } else {
      var m := LastExists(t, e);
      LeadingIsTopK(t, e - {m}, limit);
      LeadingWithoutLast(t, e, m, limit);
      if |e| <= limit {
        SubsetSize(Leading(t, e - {m}, limit), e - {m});
      }
    }
  }

  /**
   * A claim returns pending and failed rows of the account that are due and not locked, as many as the
   * limit allows; none of the others has been due for longer, or for as long under a smaller id.
   */
  lemma ClaimTakesOldest(t: Table, account: string, now: int, limit: nat, locked: set<nat>)
    ensures var c := ClaimSet(t, account, now, limit, locked);
            var due := set i | i in t && i !in locked && t[i].key.account == account
                               && (t[i].status == Pending || t[i].status == Failed) && t[i].availableAt <= now;
            && c <= due && |c| == Min(limit, |due|)
            && (forall i, j :: i in c && j in due && j !in c ==>
                  t[i].availableAt < t[j].availableAt || (t[i].availableAt == t[j].availableAt && i < j))
  {
    var due := set i | i in t && i !in locked && t[i].key.account == account
                       && (t[i].status == Pending || t[i].status == Failed) && t[i].availableAt <= now;
    assert due == Eligible(t, account, now, locked);
    LeadingIsTopK(t, due, limit);
  }

  // What enqueueing keeps ---------------------------------------------------------------------

  /** Row by row: an old id keeps its key, an inserted id carries the next unqueued item. */
  lemma EnqueuedRow(t: Table, nextId: nat, items: seq<Key>, now: int, i: nat)
    requires IdsBelow(t, nextId)
    ensures var added := Unqueued(t, items);
            var u := AfterEnqueue(t, nextId, items, now);
            && (i in u <==> i in t || nextId <= i < nextId + |added|)
            && (i in t ==> u[i] == if t[i].key in items then Requeued(t[i], now) else t[i])
            && (i in u && i !in t ==> u[i] == NewRow(added[i - nextId], now) && u[i].key in items && u[i].key !in KeysOf(t))
  {
    var added := Unqueued(t, items);
    if nextId <= i < nextId + |added| {
      assert added[i - nextId] in added;
    }
  }

  lemma {:induction false} UnqueuedDistinct(t: Table, items: seq<Key>)
    requires DistinctKeys(items)
    ensures DistinctKeys(Unqueued(t, items))
  {
    if items != [] {
      UnqueuedDistinct(t, items[1..]);
      assert items[0] !in items[1..];
    }
  }

  /** Enqueueing keeps one row per key. */
  lemma EnqueueKeepsKeysUnique(t: Table, nextId: nat, items: seq<Key>, now: int)
    requires IdsBelow(t, nextId) && KeysUnique(t) && DistinctKeys(items)
    ensures KeysUnique(AfterEnqueue(t, nextId, items, now))
  {
    UnqueuedDistinct(t, items);
    var u := AfterEnqueue(t, nextId, items, now);
    forall i, j | i in u && j in u && u[i].key == u[j].key ensures i == j {
      EnqueuedRow(t, nextId, items, now, i);
      EnqueuedRow(t, nextId, items, now, j);
    }
  }

  /** After enqueueing there is exactly one row for every item, and no old row is lost. */
  lemma EnqueueCoversItems(t: Table, nextId: nat, items: seq<Key>, now: int)
    requires IdsBelow(t, nextId)
    ensures KeysOf(AfterEnqueue(t, nextId, items, now)) == KeysOf(t) + (set k | k in items)
  {
    var u := AfterEnqueue(t, nextId, items, now);
    forall k | k in items || k in KeysOf(t) ensures k in KeysOf(u) { EnqueuedIsThere(t, nextId, items, now, k); }
    forall k | k in KeysOf(u) ensures k in items || k in KeysOf(t) {
      var i :| i in u && u[i].key == k;
      EnqueuedRow(t, nextId, items, now, i);
    }
  }

  lemma EnqueuedIsThere(t: Table, nextId: nat, items: seq<Key>, now: int, k: Key)
    requires IdsBelow(t, nextId) && (k in items || k in KeysOf(t))
    ensures k in KeysOf(AfterEnqueue(t, nextId, items, now))
  {
    var added := Unqueued(t, items);
    var u := AfterEnqueue(t, nextId, items, now);
    var i: nat;
    if k in KeysOf(t) {
      i :| i in t && t[i].key == k;
    } else {
      var n :| 0 <= n < |added| && added[n] == k;
      i := nextId + n;
    }
    EnqueuedRow(t, nextId, items, now, i);
    assert i in u && u[i].key == k;
  }

  lemma {:induction false} NothingUnqueued(t: Table, items: seq<Key>)
    requires forall k :: k in items ==> k in KeysOf(t)
    ensures Unqueued(t, items) == []
  {
    if items != [] {
      NothingUnqueued(t, items[1..]);
    }
  }

  lemma NothingToChange(u: Table, nextId: nat, items: seq<Key>, now: int)
    requires Unqueued(u, items) == []
    requires forall i :: i in u && u[i].key in items ==> Requeued(u[i], now) == u[i]
    ensures AfterEnqueue(u, nextId, items, now) == u
  {}

  /** Enqueueing the same items again at the same instant changes nothing. */
  lemma EnqueueIdempotent(t: Table, nextId: nat, items: seq<Key>, now: int, nextId': nat)
    requires IdsBelow(t, nextId)
    ensures var u := AfterEnqueue(t, nextId, items, now); AfterEnqueue(u, nextId', items, now) == u
  {
    var u := AfterEnqueue(t, nextId, items, now);
    EnqueueCoversItems(t, nextId, items, now);
    NothingUnqueued(u, items);
    forall i | i in u && u[i].key in items ensures Requeued(u[i], now) == u[i] {
      EnqueuedRow(t, nextId, items, now, i);
    }
    NothingToChange(u, nextId', items, now);
  }
}
