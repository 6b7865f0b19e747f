/** The full and the incremental sync of one folder, statement by statement, on a mailbox that does not change. */
module UidFullSync {
  import opened Common
  import opened UidCursor

  /** The folder's rows, updated in place. */
  class FolderStore {
    var cursor: Option<nat>
    var validity: Option<nat>
    var emails: set<string>
    var queued: set<QueueKey>
    var missing: set<Place>

    function State(): Folder
      reads this
    {
      Folder(cursor, validity, emails, queued, missing)
    }

    constructor ()
      ensures State() == Folder(None, None, {}, {}, {})
    {
      cursor, validity, emails, queued, missing := None, None, {}, {}, {};
    }

    method UpdateLastSyncedUid(uid: nat)
      modifies this`cursor
      ensures cursor == Some(uid)
    {
      cursor := Some(uid);
    }

    method UpdateUidValidity(v: nat) returns (previous: Option<nat>)
      modifies this`validity
      ensures previous == old(validity) && validity == Some(v)
    {
      previous := validity;
      if previous != Some(v) {
        validity := Some(v);
      }
    }

    method ResetSyncState(v: nat)
      modifies this`cursor, this`validity
      ensures cursor == None && validity == Some(v)
    {
      cursor, validity := None, Some(v);
    }

    method RecordMissingMessageId(uid: nat, v: nat)
      modifies this`missing
      ensures missing == old(missing) + {Place(uid, v)}
    {
      missing := missing + {Place(uid, v)};
    }

    method UpsertEnvelopesAndEnqueue(batch: map<nat, Mid>, v: nat)
      modifies this`emails, this`queued
      ensures State() == Upserted(old(State()), batch, v)
    {
      emails := emails + MidsOf(batch);
      queued := queued + KeysFor(batch, v);
    }
  }

  function Restrict(batch: map<nat, Mid>, us: set<nat>): map<nat, Mid> { map u | u in batch && u in us :: batch[u] }

  function PlacesOf(us: set<nat>, v: nat): set<Place> { set u | u in us :: Place(u, v) }

  method RecordAll(store: FolderStore, uids: set<nat>, v: nat)
    modifies store`missing
    ensures store.missing == old(store.missing) + PlacesOf(uids, v)
  {
    var todo := uids;
    while todo != {}
      invariant todo <= uids
      invariant store.missing == old(store.missing) + PlacesOf(uids - todo, v)
    {
      var u :| u in todo;
      store.RecordMissingMessageId(u, v);
      assert uids - (todo - {u}) == (uids - todo) + {u};
      todo := todo - {u};
    }
    assert uids - todo == uids;
  }

  /** Every UID without a usable Message-ID is fetched once more by itself. */
  method RefetchEach(m: Mailbox, withMid: map<nat, Mid>, without: set<nat>) returns (envelopes: map<nat, Mid>)
    requires withMid.Keys !! without
    requires without <= m.msgs.Keys
    ensures envelopes == withMid + Restrict(m.msgs, without)
  {
    var found, still, todo := withMid, map[], without;
    while todo != {}
      invariant todo <= without
      invariant found.Keys !! still.Keys && found.Keys + still.Keys == withMid.Keys + (without - todo)
      invariant forall u :: u in found ==> found[u] == if u in withMid then withMid[u] else m.msgs[u]
      invariant forall u :: u in still ==> u !in withMid && still[u] == m.msgs[u]
    {
      var u :| u in todo;
      var again := FetchUids(m, {u});
      var mid := if u in again then again[u] else None;
      if Usable(mid) {
        found := found[u := mid];
      } else {
        still := still[u := mid];
      }
      todo := todo - {u};
    }
    envelopes := found + still;
  }

  /** Two rounds of refetching, then whatever still lacks a Message-ID is recorded and dropped. */
  method ResolveMessageIds(m: Mailbox, store: FolderStore, batch: map<nat, Mid>, v: nat)
    returns (envelopes: map<nat, Mid>, rounds: nat)
    requires forall u :: u in batch ==> u in m.msgs && m.msgs[u] == batch[u]
    modifies store`missing
    ensures envelopes == Restrict(batch, UsableOf(batch)) && envelopes.Keys == UsableOf(batch)
    ensures store.missing == old(store.missing) + PlacesOf(Blanks(batch), v)
    ensures forall u :: u in Blanks(batch) ==> Place(u, v) in store.missing
    ensures rounds == if Blanks(batch) == {} then 0 else 2
  {
    envelopes, rounds := batch, 0;
    var attempt := 0;
    while true
      invariant rounds == attempt <= 2 && (attempt > 0 ==> Blanks(batch) != {})
      invariant envelopes == batch && store.missing == old(store.missing)
      decreases 2 - attempt
    {
      var withMid := Restrict(envelopes, UsableOf(envelopes));
      var without := Blanks(envelopes);
      if without == {} {
        return withMid, rounds;
      }
      if attempt == 2 {
        RecordAll(store, without, v);
        assert forall u :: u in without ==> Place(u, v) in PlacesOf(without, v);
        return withMid, rounds;
      }
      envelopes := RefetchEach(m, withMid, without);
      assert envelopes == batch;
      attempt, rounds := attempt + 1, rounds + 1;
    }
  }

  // How far one fetch gets --------------------------------------------------------------------

  ghost predicate Barren(m: Mailbox, lo: nat, hi: nat) { forall u :: u in m.msgs && lo <= u <= hi ==> !Usable(m.msgs[u]) }

  ghost predicate Void(m: Mailbox, lo: nat, hi: nat) { forall u :: u in m.msgs ==> !(lo <= u <= hi) }

  function BlockEnd(m: Mailbox, base: nat): nat
    requires ValidMailbox(m)
  {
    RangeEnd(base, Highest(m))
  }

  /** After k fetches in the block that began at base. */
  ghost predicate InBlock(m: Mailbox, base: nat, k: nat, start: nat)
    requires ValidMailbox(m)
  {
    && 1 <= base && k <= 2
    && (k == 0 ==> start == base)
    && (k >= 1 ==> base < start <= BlockEnd(m, base))
    && (k == 1 ==> Barren(m, start, BlockEnd(m, base)))
    && (k == 2 ==> Void(m, start, BlockEnd(m, base)))
  }

  /** The three ways a fetch at start moves on to next. */
  ghost predicate Moved(m: Mailbox, start: nat, next: nat)
    requires ValidMailbox(m)
  {
    var e := BlockEnd(m, start);
    && start < next <= e + 1
    && (|| (next == e + 1 && Void(m, start, e))
        || (next - 1 in m.msgs && Void(m, next, e) && Barren(m, start, e))
        || (next - 1 in m.msgs && Usable(m.msgs[next - 1]) && Barren(m, next, e)))
  }

  /** Within three fetches the sync is past the block, that is at least 250 UIDs further. */
  lemma BlockProgress(m: Mailbox, base: nat, k: nat, start: nat, next: nat) returns (k': nat)
    requires ValidMailbox(m) && 1 <= start <= Highest(m)
    requires InBlock(m, base, k, start) && Moved(m, start, next) && next <= Highest(m)
    ensures next <= BlockEnd(m, base) ==> k < k' && InBlock(m, base, k', next)
    ensures next > BlockEnd(m, base) ==> next >= base + BATCH_SIZE
  {
    var e := BlockEnd(m, base);
    assert e <= BlockEnd(m, start);
    k' := if k == 0 && !Void(m, next, e) then 1 else 2;
  }

  /** Blocks of 250 UIDs. */
  function Ceil(n: nat): nat { (n + 249) / 250 }

  lemma BlocksFit(n: nat, blocks: nat)
    requires 1 + BATCH_SIZE * blocks <= n
    ensures blocks + 1 <= Ceil(n)
  {}

  // The folder loop ---------------------------------------------------------------------------

  /** The cursor is a UID the store can hold. */
  predicate Bounded(f: Folder) { f.cursor.Some? ==> f.cursor.value < UID_LIMIT }

  /** The stored cursor lies past the mailbox's last UID, as an interrupted reset can leave it. */
  predicate PastTheEnd(f: Folder, m: Mailbox) { f.cursor.Some? && !Renumbered(f, m) && f.cursor.value >= m.uidNext }

  /** What a full sync leaves of such a folder: the rows as they are, the cursor too unless the mailbox never held mail. */
  function LeftAlone(f: Folder, m: Mailbox): Folder
    requires ValidMailbox(m)
  {
    f.(validity := Some(m.validity), cursor := if Highest(m) == 0 then Some(0) else f.cursor)
  }

  /** Every message above lo and up to n is imported or recorded as missing. */
  ghost predicate Accounted(f: Folder, m: Mailbox, lo: nat, n: nat) {
    forall u :: u in m.msgs && lo < u <= n ==>
      if Usable(m.msgs[u]) then Imported(f, m.validity, u, m.msgs[u]) else Place(u, m.validity) in f.missing
  }

  lemma ExtendsAccounted(f: Folder, f': Folder, m: Mailbox, lo: nat, n: nat)
    requires Extends(f, f') && Accounted(f, m, lo, n)
    ensures Accounted(f', m, lo, n)
  {}

  /** Where a full sync begins to work: at the stored cursor, or at the beginning. */
  function Origin(f: Folder, m: Mailbox): nat {
    if f.cursor.None? || Renumbered(f, m) then 0 else f.cursor.value
  }

  function StartUid(f: Folder): nat { if f.cursor.Some? then SatAdd32(f.cursor.value, 1) else 1 }

  predicate Renumbered(f: Folder, m: Mailbox) { Mismatch(f, m.validity) }

  /** Nothing is lost from the rows, and nothing is added that no message of the mailbox gives rise to. */
  ghost predicate Grew(f: Folder, f': Folder, m: Mailbox) {
    && Extends(f, f')
    && f'.emails <= f.emails + MidsOf(m.msgs)
    && f'.queued <= f.queued + KeysFor(m.msgs, m.validity)
    && f'.missing <= f.missing + PlacesOf(Blanks(m.msgs), m.validity)
  }

  ghost predicate PartOf(batch: map<nat, Mid>, m: Mailbox) {
    forall u :: u in batch ==> u in m.msgs && m.msgs[u] == batch[u]
  }

  lemma UpsertGrows(f: Folder, batch: map<nat, Mid>, m: Mailbox)
    requires PartOf(batch, m)
    ensures Grew(f, Upserted(f, batch, m.validity), m)
  {
    assert forall u :: u in UsableOf(batch) ==> u in UsableOf(m.msgs) && batch[u] == m.msgs[u];
    assert MidsOf(batch) <= MidsOf(m.msgs);
    assert KeysFor(batch, m.validity) <= KeysFor(m.msgs, m.validity);
  }

  lemma RecordGrows(f: Folder, f': Folder, batch: map<nat, Mid>, m: Mailbox)
    requires PartOf(batch, m)
    requires f' == f.(missing := f.missing + PlacesOf(Blanks(batch), m.validity))
    ensures Grew(f, f', m)
  {
    assert forall u :: u in Blanks(batch) ==> u in Blanks(m.msgs);
    assert PlacesOf(Blanks(batch), m.validity) <= PlacesOf(Blanks(m.msgs), m.validity);
  }

  lemma GrewTwice(f: Folder, f': Folder, f'': Folder, m: Mailbox)
    requires Grew(f, f', m) && Grew(f', f'', m)
    ensures Grew(f, f'', m)
  {}

  /** The rows written for a batch account for everything the batch's range holds. */
  lemma BatchAccounted(f: Folder, f': Folder, m: Mailbox, lo: nat, start: nat, n: nat)
    requires ValidMailbox(m) && start >= 1 && Accounted(f, m, lo, start - 1)
    requires Extends(f, f') && n <= BlockEnd(m, start)
    requires forall u :: u in m.msgs && start <= u <= n ==>
               if Usable(m.msgs[u]) then Imported(f', m.validity, u, m.msgs[u]) else Place(u, m.validity) in f'.missing
    ensures Accounted(f', m, lo, n)
  {}

  lemma FetchedRange(m: Mailbox, start: nat)
    requires ValidMailbox(m) && 1 <= start <= Highest(m)
    ensures FetchRange(m, start).Keys == set u | u in m.msgs && start <= u <= BlockEnd(m, start)
    ensures forall u :: u in FetchRange(m, start) ==> FetchRange(m, start)[u] == m.msgs[u]
  {}

  lemma UnimportableMoves(m: Mailbox, start: nat, batch: map<nat, Mid>)
    requires ValidMailbox(m) && 1 <= start <= Highest(m)
    requires batch == FetchRange(m, start) && batch != map[] && UsableOf(batch) == {}
    ensures Moved(m, start, Top(batch.Keys) + 1)
  {
    FetchedRange(m, start);
    forall u | u in m.msgs && start <= u <= BlockEnd(m, start) ensures !Usable(m.msgs[u]) && u <= Top(batch.Keys) {
      assert u in batch && u !in UsableOf(batch);
    }
  }

  lemma ImportMoves(m: Mailbox, start: nat, batch: map<nat, Mid>)
    requires ValidMailbox(m) && 1 <= start <= Highest(m)
    requires batch == FetchRange(m, start) && UsableOf(batch) != {}
    ensures Moved(m, start, Top(UsableOf(batch)) + 1)
  {
    FetchedRange(m, start);
    forall u | u in m.msgs && Top(UsableOf(batch)) < u <= BlockEnd(m, start) ensures !Usable(m.msgs[u]) {
      assert u in batch && u !in UsableOf(batch);
    }
  }

  /** Import what has a Message-ID: rows first, then the cursor at the highest imported UID. */
  method ImportUsable(m: Mailbox, store: FolderStore, ghost lo: nat, start: nat, batch: map<nat, Mid>, envelopes: map<nat, Mid>) returns (next: nat)
    requires ValidMailbox(m) && 1 <= start <= Highest(m)
    requires batch == FetchRange(m, start) && envelopes == Restrict(batch, UsableOf(batch)) && envelopes != map[]
    requires Accounted(store.State(), m, lo, start - 1)
    requires forall u :: u in Blanks(batch) ==> Place(u, m.validity) in store.missing
    modifies store`cursor, store`emails, store`queued
    ensures next == Top(UsableOf(batch)) + 1
    ensures store.cursor == Some(next - 1) && Accounted(store.State(), m, lo, next - 1)
    ensures Grew(old(store.State()), store.State(), m)
  {
    FetchedRange(m, start);
    ghost var before := store.State();
    store.UpsertEnvelopesAndEnqueue(envelopes, m.validity);
    ghost var after := store.State();
    UpsertGrows(before, envelopes, m);
    assert envelopes.Keys == UsableOf(batch);
    var highest := Top(envelopes.Keys);
    forall u | u in m.msgs && start <= u <= highest
      ensures if Usable(m.msgs[u]) then Imported(after, m.validity, u, m.msgs[u]) else Place(u, m.validity) in after.missing
    {
      assert u in batch;
      if Usable(batch[u]) {
        assert u in envelopes;
        UpsertImports(before, envelopes, m.validity, u);
      } else {
        assert u in Blanks(batch);
      }
    }
    assert Extends(before, after);
    BatchAccounted(before, after, m, lo, start, highest);
    store.UpdateLastSyncedUid(highest);
    next := SatAdd32(highest, 1);
  }

  /** Nothing in the range can be imported: its last UID becomes the cursor. */
  method PassUnimportable(m: Mailbox, store: FolderStore, ghost lo: nat, start: nat, batch: map<nat, Mid>) returns (next: nat)
    requires ValidMailbox(m) && 1 <= start <= Highest(m)
    requires batch == FetchRange(m, start) && batch != map[] && UsableOf(batch) == {}
    requires Accounted(store.State(), m, lo, start - 1)
    requires forall u :: u in Blanks(batch) ==> Place(u, m.validity) in store.missing
    modifies store`cursor
    ensures Moved(m, start, next)
    ensures store.cursor == Some(next - 1) && Accounted(store.State(), m, lo, next - 1)
    ensures Grew(old(store.State()), store.State(), m)
  {
    FetchedRange(m, start);
    UnimportableMoves(m, start, batch);
    var highestFetched := Top(batch.Keys);
    forall u | u in m.msgs && start <= u <= highestFetched ensures !Usable(m.msgs[u]) && Place(u, m.validity) in store.missing {
      assert u in batch && u !in UsableOf(batch) && u in Blanks(batch);
    }
    BatchAccounted(store.State(), store.State(), m, lo, start, highestFetched);
    store.UpdateLastSyncedUid(highestFetched);
    next := SatAdd32(highestFetched, 1);
  }

  /** One pass of the loop over a range that holds messages; returns the next start. */
  method ImportRange(m: Mailbox, store: FolderStore, ghost lo: nat, start: nat, batch: map<nat, Mid>) returns (next: nat)
    requires ValidMailbox(m) && 1 <= start <= Highest(m)
    requires batch == FetchRange(m, start) && batch != map[]
    requires Accounted(store.State(), m, lo, start - 1)
    modifies store`cursor, store`emails, store`queued, store`missing
    ensures Moved(m, start, next)
    ensures store.cursor == Some(next - 1) && Accounted(store.State(), m, lo, next - 1)
    ensures Grew(old(store.State()), store.State(), m)
  {
    FetchedRange(m, start);
    ghost var before := store.State();
    var envelopes, rounds := ResolveMessageIds(m, store, batch, m.validity);
    ghost var after := store.State();
    RecordGrows(before, after, batch, m);
    ExtendsAccounted(before, after, m, lo, start - 1);
    next := ImportResolved(m, store, lo, start, batch, envelopes);
    GrewTwice(before, after, store.State(), m);
  }

  method ImportResolved(m: Mailbox, store: FolderStore, ghost lo: nat, start: nat, batch: map<nat, Mid>, envelopes: map<nat, Mid>) returns (next: nat)
    requires ValidMailbox(m) && 1 <= start <= Highest(m)
    requires batch == FetchRange(m, start) && batch != map[]
    requires envelopes == Restrict(batch, UsableOf(batch)) && envelopes.Keys == UsableOf(batch)
    requires Accounted(store.State(), m, lo, start - 1)
    requires forall u :: u in Blanks(batch) ==> Place(u, m.validity) in store.missing
    modifies store`cursor, store`emails, store`queued
    ensures Moved(m, start, next)
    ensures store.cursor == Some(next - 1) && Accounted(store.State(), m, lo, next - 1)
    ensures Grew(old(store.State()), store.State(), m)
  {
    if envelopes == map[] {
      next := PassUnimportable(m, store, lo, start, batch);
    } else {
      next := ImportUsable(m, store, lo, start, batch, envelopes);
      ImportMoves(m, start, batch);
    }
  }

  /** An empty range is skipped as a whole. */
  method SkipRange(m: Mailbox, store: FolderStore, ghost lo: nat, start: nat) returns (next: nat)
    requires ValidMailbox(m) && 1 <= start <= Highest(m) && FetchRange(m, start) == map[]
    requires Accounted(store.State(), m, lo, start - 1)
    modifies store`cursor
    ensures Moved(m, start, next)
    ensures store.cursor == Some(next - 1) && Accounted(store.State(), m, lo, next - 1)
    ensures Grew(old(store.State()), store.State(), m)
  {
    FetchedRange(m, start);
    var endOfRange := RangeEnd(start, Highest(m));
    assert forall u :: u in m.msgs && start <= u <= endOfRange ==> u in FetchRange(m, start).Keys;
    BatchAccounted(store.State(), store.State(), m, lo, start, endOfRange);
    store.UpdateLastSyncedUid(endOfRange);
    next := SatAdd32(endOfRange, 1);
  }

  method PassRange(m: Mailbox, store: FolderStore, ghost lo: nat, start: nat, batch: map<nat, Mid>) returns (next: nat)
    requires ValidMailbox(m) && 1 <= start <= Highest(m)
    requires batch == FetchRange(m, start)
    requires Accounted(store.State(), m, lo, start - 1)
    modifies store`cursor, store`emails, store`queued, store`missing
    ensures Moved(m, start, next)
    ensures store.cursor == Some(next - 1) && Accounted(store.State(), m, lo, next - 1)
    ensures Grew(old(store.State()), store.State(), m)
  {
    if batch == map[] {
      next := SkipRange(m, store, lo, start);
    } else {
      next := ImportRange(m, store, lo, start, batch);
    }
  }

  /** After paid fetches: so many whole blocks, and k fetches in the current one. */
  ghost predicate Budget(m: Mailbox, base: nat, k: nat, blocks: nat, start: nat, paid: nat)
    requires ValidMailbox(m)
  {
    InBlock(m, base, k, start) && paid <= 3 * blocks + k && 1 + BATCH_SIZE * blocks <= base
  }

  lemma BudgetStep(m: Mailbox, base: nat, k: nat, blocks: nat, start: nat, paid: nat, next: nat) returns (base': nat, k': nat, blocks': nat)
    requires ValidMailbox(m) && Budget(m, base, k, blocks, start, paid)
    requires 1 <= start <= Highest(m) && Moved(m, start, next)
    ensures paid + 1 <= 3 * Ceil(Highest(m))
    ensures next <= Highest(m) ==> Budget(m, base', k', blocks', next, paid + 1)
  {
    BlocksFit(Highest(m), blocks);
    base', k', blocks' := base, k, blocks;
    if next <= Highest(m) {
      k' := BlockProgress(m, base, k, start, next);
      if next > BlockEnd(m, base) {
        base', k', blocks' := next, 0, blocks + 1;
      }
    }
  }

  /** Between two fetches: all below start is accounted for, and the cursor says so. */
  ghost predicate Working(m: Mailbox, f: Folder, lo: nat, base: nat, k: nat, blocks: nat, start: nat, paid: nat)
    requires ValidMailbox(m)
  {
    && 1 <= start <= Highest(m) + 1
    && Budget(m, base, k, blocks, start, paid)
    && Accounted(f, m, lo, start - 1)
    && (f.cursor == Some(start - 1) || (start == 1 && f.cursor == None))
  }

  lemma AccountedBelow(f: Folder, m: Mailbox, lo: nat, n: nat, n': nat)
    requires Accounted(f, m, lo, n) && n' <= n
    ensures Accounted(f, m, lo, n')
  {}

  lemma NothingToAccount(f: Folder, m: Mailbox, n: nat)
    ensures Accounted(f, m, n, n)
  {}

  lemma NothingPastTheEnd(m: Mailbox, start: nat)
    requires ValidMailbox(m) && start >= 1
    ensures FetchRange(m, start) != map[] ==> start <= Highest(m)
  {}

  /** Store the UIDVALIDITY the fetch reported; another stored value resets the folder. */
  method CheckValidity(m: Mailbox, store: FolderStore) returns (reset: bool)
    modifies store`cursor, store`validity
    ensures store.validity == Some(m.validity)
    ensures reset <==> old(Renumbered(store.State(), m))
    ensures reset <==> old(store.validity) != None && old(store.validity) != Some(0) && old(store.validity) != Some(m.validity)
    ensures store.cursor == if reset then None else old(store.cursor)
  {
    var previous := store.UpdateUidValidity(m.validity);
    reset := previous.Some? && previous.value != 0 && previous.value != m.validity;
    if reset {
      store.ResetSyncState(m.validity);
    }
  }

  /** The cursor is at the last UID of the mailbox, and everything up to there is imported or recorded missing. */
  ghost predicate Synced(f: Folder, m: Mailbox, lo: nat)
    requires ValidMailbox(m)
  {
    f.validity == Some(m.validity) && f.cursor == Some(Highest(m)) && Accounted(f, m, lo, Highest(m))
  }

  /** One iteration behind the UIDVALIDITY check. */
  method SyncRange(m: Mailbox, store: FolderStore, ghost lo: nat, start: nat, ghost base: nat, ghost k: nat, ghost blocks: nat, ghost paid: nat)
    returns (done: bool, next: nat, ghost base': nat, ghost k': nat, ghost blocks': nat)
    requires ValidMailbox(m) && start <= UID_LIMIT && store.validity == Some(m.validity)
    requires start > Highest(m) + 1 || Working(m, store.State(), lo, base, k, blocks, start, paid)
    modifies store`cursor, store`emails, store`queued, store`missing
    ensures start > Highest(m) + 1 ==> done && store.State() == LeftAlone(old(store.State()), m)
    ensures done && start <= Highest(m) + 1 ==> Synced(store.State(), m, lo) && (start > Highest(m) || paid + 1 <= 3 * Ceil(Highest(m)))
    ensures !done ==> start < next <= Highest(m) && Working(m, store.State(), lo, base', k', blocks', next, paid + 1)
    ensures Grew(old(store.State()), store.State(), m)
  {
    var uidEnd := Highest(m);
    var batch := FetchRange(m, start);
    NothingPastTheEnd(m, start);
    next, base', k', blocks' := start, base, k, blocks;
    if batch == map[] && uidEnd == 0 {
      store.UpdateLastSyncedUid(0);
      return true, next, base', k', blocks';
    }
    if batch == map[] && start > uidEnd {
      if start == uidEnd + 1 { AccountedBelow(store.State(), m, lo, start - 1, uidEnd); }
      return true, next, base', k', blocks';
    }
    next := PassRange(m, store, lo, start, batch);
    base', k', blocks' := BudgetStep(m, base, k, blocks, start, paid, next);
    done := next - 1 >= uidEnd;
    if done {
      AccountedBelow(store.State(), m, lo, next - 1, uidEnd);
    }
  }

  /**
   * Full sync of one folder: on exit everything from the old cursor up to the highest UID is imported or
   * recorded missing, and the cursor is there, after at most three fetches per 250 UIDs and one more. An
   * empty mailbox whose UIDVALIDITY changed costs two. A cursor past the end costs one, and stays.
   */
  method SyncFolderFull(m: Mailbox, store: FolderStore) returns (fetches: nat)
    requires ValidMailbox(m) && Bounded(store.State())
    modifies store
    ensures !old(PastTheEnd(store.State(), m)) ==> Synced(store.State(), m, old(Origin(store.State(), m)))
    ensures old(PastTheEnd(store.State(), m)) ==> fetches == 1 && store.State() == LeftAlone(old(store.State()), m)
    ensures Grew(old(store.State()), store.State(), m)
    ensures Highest(m) > 0 || !old(Renumbered(store.State(), m)) ==> fetches <= 3 * Ceil(Highest(m)) + 1
    ensures Highest(m) == 0 && old(Renumbered(store.State(), m)) ==> fetches == 2 > 3 * Ceil(Highest(m)) + 1
  {
    var start := StartUid(store.State());
    fetches := 0;
    ghost var lo := Origin(store.State(), m);
    NothingToAccount(store.State(), m, lo);
    ghost var past := PastTheEnd(store.State(), m);
    ghost var stale := Renumbered(store.State(), m);
    ghost var lost := if stale then 1 else 0;
    ghost var paid: nat, base: nat, k: nat, blocks: nat := 0, if stale then 1 else start, 0, 0;
    while true
      invariant 1 <= start <= UID_LIMIT && (stale ==> lo == 0)
      invariant stale == Renumbered(store.State(), m)
      invariant Grew(old(store.State()), store.State(), m)
      invariant past ==> fetches == 0 && !stale && start > Highest(m) + 1 && store.State() == old(store.State())
      invariant stale ==> fetches == 0 && lost == 1 && base == 1 && k == 0 && blocks == 0 && paid == 0
      invariant !stale && !past ==> fetches == lost + paid && (paid > 0 ==> start <= Highest(m)) && (paid == 0 && lost == 1 ==> start == 1)
      invariant !stale && !past ==> Working(m, store.State(), lo, base, k, blocks, start, paid)
      decreases stale, if start <= Highest(m) then Highest(m) + 1 - start else 0
    {
      fetches := fetches + 1;
      var reset := CheckValidity(m, store);
      if reset {
        start, stale := 1, false;
        NothingToAccount(store.State(), m, 0);
        continue;
      }
      var done, next;
      ghost var before := store.State();
      done, next, base, k, blocks := SyncRange(m, store, lo, start, base, k, blocks, paid);
      GrewTwice(old(store.State()), before, store.State(), m);
      paid := paid + 1;
      if done {
        break;
      }
      start := next;
    }
  }

  /** From rows that account for everything up to the old cursor, a full sync accounts for the whole mailbox. */
  lemma FullSyncAccountsForAll(f: Folder, f': Folder, m: Mailbox)
    requires ValidMailbox(m) && Grew(f, f', m) && Synced(f', m, Origin(f, m))
    requires Accounted(f, m, 0, Origin(f, m))
    ensures Synced(f', m, 0)
  {
    ExtendsAccounted(f, f', m, 0, Origin(f, m));
  }

  /** Messages without Message-ID that an incremental sync passed need not be recorded for the rest to be imported. */
  lemma FullSyncCoversAll(f: Folder, f': Folder, m: Mailbox)
    requires ValidMailbox(m) && Grew(f, f', m) && Synced(f', m, Origin(f, m))
    requires Covered(f, m, Origin(f, m))
    ensures Covered(f', m, Highest(m))
  {
    ExtendsKeeps(f, f', m, Origin(f, m));
  }

  // The incremental sync ----------------------------------------------------------------------

  function Ascending(us: set<nat>): (s: seq<nat>)
    ensures forall u :: u in s <==> u in us
    ensures forall i, j :: 0 <= i < j < |s| ==> s[i] < s[j]
  {
    if us == {} then [] else Ascending(us - {Top(us)}) + [Top(us)]
  }

  function SetOf(s: seq<nat>): set<nat> { set u | u in s }

  /** The new UIDs are fetched 250 at a time. */
  method FetchInChunks(m: Mailbox, uids: seq<nat>) returns (all: map<nat, Mid>, fetches: nat)
    ensures all == FetchUids(m, SetOf(uids))
    ensures fetches == Ceil(|uids|)
  {
    all, fetches := map[], 0;
    var i := 0;
    while i < |uids|
      invariant 0 <= i <= |uids|
      invariant all == FetchUids(m, SetOf(uids[..i]))
      invariant fetches == Ceil(i) && (i < |uids| ==> i % BATCH_SIZE == 0)
    {
      var hi := if i + BATCH_SIZE <= |uids| then i + BATCH_SIZE else |uids|;
      var chunk := SetOf(uids[i..hi]);
      assert uids[..hi] == uids[..i] + uids[i..hi];
      assert SetOf(uids[..hi]) == SetOf(uids[..i]) + chunk;
      all := all + FetchUids(m, chunk);
      i, fetches := hi, fetches + 1;
    }
    assert uids[..i] == uids;
  }

  function NewMessages(m: Mailbox, since: nat): map<nat, Mid> { map u | u in m.msgs && u > since :: m.msgs[u] }

  /** The rows afterwards: untouched without new messages, reset when renumbered, else the importable ones added. */
  function AfterIncremental(f: Folder, m: Mailbox, messages: map<nat, Mid>): Folder {
    if messages == map[] then f
    else if Renumbered(f, m) then f.(cursor := None, validity := Some(m.validity))
    else if UsableOf(messages) == {} then f.(validity := Some(m.validity))
    else Upserted(f, messages, m.validity).(cursor := Some(Top(messages.Keys)), validity := Some(m.validity))
  }

  /** The incremental sync imports everything importable above the cursor, whether or not it can move the cursor. */
  lemma IncrementalCovers(f: Folder, m: Mailbox)
    requires ValidMailbox(m) && f.cursor.Some? && !Renumbered(f, m)
    requires Covered(f, m, f.cursor.value)
    ensures var f' := AfterIncremental(f, m, NewMessages(m, f.cursor.value));
            && Covered(f', m, Highest(m)) && f'.cursor.Some?
            && f'.cursor.value >= f.cursor.value
            && forall u :: u in m.msgs && Usable(m.msgs[u]) ==> u <= f'.cursor.value
  {
    var since := f.cursor.value;
    var messages := NewMessages(m, since);
    var f' := AfterIncremental(f, m, messages);
    forall u | u in m.msgs && Usable(m.msgs[u]) ensures Imported(f', m.validity, u, m.msgs[u]) {
      if u > since {
        assert u in messages && u in UsableOf(messages);
        UpsertImports(f, messages, m.validity, u);
      }
    }
    IncrementalMovesOn(f, m);
    forall u | u in m.msgs && Usable(m.msgs[u]) ensures u <= f'.cursor.value {
      if u > since {
        var isNew := set u | u in m.msgs && u > f.cursor.value;
        var named := set u | u in isNew && Usable(m.msgs[u]);
        assert u in isNew && u in named;
      }
    }
  }

  /**
   * Without new messages nothing changes. A renumbered folder loses its cursor and nothing else. Otherwise
   * the new messages with a usable Message-ID are added, and if there are any the cursor is the highest UID.
   */
  ghost predicate MovedOn(f: Folder, f': Folder, m: Mailbox)
    requires f.cursor.Some?
  {
    var isNew := set u | u in m.msgs && u > f.cursor.value;
    var named := set u | u in isNew && Usable(m.msgs[u]);
    && (isNew == {} ==> f' == f)
    && (isNew != {} ==> f'.validity == Some(m.validity))
    && (isNew != {} && Renumbered(f, m) ==> f'.cursor == None && f'.emails == f.emails && f'.queued == f.queued)
    && (isNew != {} && !Renumbered(f, m) ==>
          && f'.cursor == (if named == {} then f.cursor else Some(Top(m.msgs.Keys)))
          && f'.emails == f.emails + (set u | u in named :: m.msgs[u].value)
          && f'.queued == f.queued + (set u | u in named :: QueueKey(u, m.validity, m.msgs[u].value)))
    && f'.missing == f.missing
  }

  lemma IncrementalMovesOn(f: Folder, m: Mailbox)
    requires ValidMailbox(m) && f.cursor.Some?
    ensures MovedOn(f, AfterIncremental(f, m, NewMessages(m, f.cursor.value)), m)
  {
    var since := f.cursor.value;
    var messages := NewMessages(m, since);
    var isNew := set u | u in m.msgs && u > since;
    var named := set u | u in isNew && Usable(m.msgs[u]);
    assert messages.Keys == isNew && UsableOf(messages) == named;
    assert MidsOf(messages) == set u | u in named :: m.msgs[u].value;
    assert KeysFor(messages, m.validity) == set u | u in named :: QueueKey(u, m.validity, m.msgs[u].value);
    if isNew != {} { assert Top(m.msgs.Keys) in isNew && Top(isNew) == Top(m.msgs.Keys); }
  }

  /** Having moved the cursor, a second pass over the same mailbox finds nothing new and leaves the rows alone. */
  lemma SecondPassFindsNothing(f: Folder, m: Mailbox, u: nat)
    requires ValidMailbox(m) && f.cursor.Some? && !Renumbered(f, m)
    requires u in m.msgs && u > f.cursor.value && Usable(m.msgs[u])
    ensures var f' := AfterIncremental(f, m, NewMessages(m, f.cursor.value));
            && f'.cursor.Some? && NewMessages(m, f'.cursor.value) == map[]
            && AfterIncremental(f', m, NewMessages(m, f'.cursor.value)) == f'
  {
    IncrementalMovesOn(f, m);
    var isNew := set u | u in m.msgs && u > f.cursor.value;
    var named := set u | u in isNew && Usable(m.msgs[u]);
    assert u in isNew && u in named;
    assert NewMessages(m, Top(m.msgs.Keys)) == map[];
  }

  lemma NewestIsTop(uids: seq<nat>, us: set<nat>)
    requires us != {} && uids == Ascending(us)
    ensures uids != [] && uids[|uids| - 1] == Top(us)
  {
  }

  lemma NewUidsAreNewMessages(m: Mailbox, since: nat, reportsNext: bool)
    requires ValidMailbox(m)
    ensures NewUids(m, since, reportsNext) == NewMessages(m, since).Keys
    ensures FetchUids(m, NewMessages(m, since).Keys) == NewMessages(m, since)
  {
    NewUidsExact(m, since, reportsNext);
  }

  /** The incremental pass over one folder; what it leaves is AfterIncremental of what it found. */
  method SyncFolderIncremental(m: Mailbox, store: FolderStore, reportsNext: bool)
    requires ValidMailbox(m) && store.cursor.Some?
    modifies store
    ensures store.State() == AfterIncremental(old(store.State()), m, NewMessages(m, old(store.cursor.value)))
    ensures MovedOn(old(store.State()), store.State(), m)
  {
    IncrementalMovesOn(store.State(), m);
    var since := store.cursor.value;
    ghost var messages := NewMessages(m, since);
    NewUidsAreNewMessages(m, since, reportsNext);
    var us := NewUids(m, since, reportsNext);
    var uids := Ascending(us);
    if uids == [] {
      assert us == {} by { if us != {} { NewestIsTop(uids, us); assert false; } }
      return;
    }
    assert SetOf(uids) == us;
    NewestIsTop(uids, us);
    var envelopes, fetches := FetchInChunks(m, uids);
    var reset := CheckValidity(m, store);
    if reset {
      return;
    }
    if UsableOf(envelopes) == {} {
      return;
    }
    store.UpsertEnvelopesAndEnqueue(envelopes, m.validity);
    store.UpdateLastSyncedUid(uids[|uids| - 1]);
  }
}
