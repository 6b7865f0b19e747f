/** The mailbox, the folder's stored sync state, and the arithmetic the sync loops share. */
module UidCursor {
  import opened Common

  const BATCH_SIZE: nat := 250

  /** UIDs stay below 2^31, because the store keeps them as i32. */
  const UID_LIMIT: nat := 0x8000_0000

  type Mid = Option<string>

  /** A selected mailbox: messages by UID, each with the Message-ID its header carries. */
  datatype Mailbox = Mailbox(validity: nat, uidNext: nat, msgs: map<nat, Mid>)

  predicate ValidMailbox(m: Mailbox) {
    && m.validity >= 1
    && 1 <= m.uidNext <= UID_LIMIT
    && forall u :: u in m.msgs ==> 1 <= u < m.uidNext
  }

  function Highest(m: Mailbox): nat
    requires ValidMailbox(m)
  {
    m.uidNext - 1
  }

  /** A Message-ID that is present and not blank. */
  predicate Usable(mid: Mid) { mid.Some? && exists c :: c in mid.value && !IsWhitespace(c) }

  datatype Place = Place(uid: nat, validity: nat)

  datatype QueueKey = QueueKey(uid: nat, validity: nat, messageId: string)

  /** The rows of one folder: cursor, UIDVALIDITY, email rows by Message-ID, body queue, missing Message-IDs. */
  datatype Folder = Folder(
    cursor: Option<nat>,
    validity: Option<nat>,
    emails: set<string>,
    queued: set<QueueKey>,
    missing: set<Place>)

  function UsableOf(batch: map<nat, Mid>): set<nat> { set u | u in batch && Usable(batch[u]) }

  function Blanks(batch: map<nat, Mid>): set<nat> { set u | u in batch && !Usable(batch[u]) }

  function KeysFor(batch: map<nat, Mid>, validity: nat): set<QueueKey> {
    set u | u in UsableOf(batch) :: QueueKey(u, validity, batch[u].value)
  }

  function Top(us: set<nat>): (m: nat)
    requires us != {}
    ensures m in us && forall u :: u in us ==> u <= m
  {
    TopExists(us);
    var m :| m in us && forall u :: u in us ==> u <= m;
    m
  }

  lemma {:induction false} TopExists(us: set<nat>)
    requires us != {}
    ensures exists m :: m in us && forall u :: u in us ==> u <= m
  {
    var m :| m in us;
    var rest := us - {m};
    if rest == {} {
      assert us == {m};
    } else {
      TopExists(rest);
      var n :| n in rest && forall u :: u in rest ==> u <= n;
      var t := if m <= n then n else m;
      forall u | u in us ensures u <= t {
        assert u == m || u in rest;
      }
    }
  }

  function MidsOf(batch: map<nat, Mid>): set<string> { set u | u in UsableOf(batch) :: batch[u].value }

  /** upsert_envelopes_and_enqueue_body_sync: email rows and queue rows in one transaction. */
  function Upserted(f: Folder, batch: map<nat, Mid>, validity: nat): Folder {
    f.(emails := f.emails + MidsOf(batch), queued := f.queued + KeysFor(batch, validity))
  }

  function MissingRecorded(f: Folder, uids: set<nat>, validity: nat): Folder {
    f.(missing := f.missing + (set u | u in uids :: Place(u, validity)))
  }

  /** update_folder_uid_validity finds another value stored. */
  predicate Mismatch(f: Folder, validity: nat) {
    f.validity.Some? && f.validity.value != 0 && f.validity.value != validity
  }

  // What a fetch returns ----------------------------------------------------------------------

  /** min(start + 249, uid_end) in saturating u32 arithmetic. */
  function RangeEnd(start: nat, uidEnd: nat): nat { Min(SatSub(SatAdd32(start, BATCH_SIZE), 1), uidEnd) }

  /** raw_uid_fetch_envelopes: nothing from an empty mailbox, else the messages of one UID range. */
  function FetchRange(m: Mailbox, startUid: nat): map<nat, Mid>
    requires ValidMailbox(m)
  {
    var uidEnd := Highest(m);
    var start := if startUid == 0 then 1 else startUid;
    if m.msgs == map[] || uidEnd == 0 then map[]
    else map u | u in m.msgs && start <= u <= RangeEnd(start, uidEnd) :: m.msgs[u]
  }

  function FetchUids(m: Mailbox, uids: set<nat>): map<nat, Mid> { map u | u in uids && u in m.msgs :: m.msgs[u] }

  // New UIDs above the cursor -----------------------------------------------------------------

  datatype SearchQuery = Closed(lo: nat, hi: nat) | Open(lo: nat)

  /** new_uid_search_query */
  function NewUidQuery(lastSynced: nat, uidNext: Option<nat>): Option<SearchQuery> {
    var start := SatAdd32(lastSynced, 1);
    match uidNext
    case Some(next) => if start >= next then None else Some(Closed(start, SatSub(next, 1)))
    case None => Some(Open(start))
  }

  /** UID SEARCH: `n:*` always names the highest existing UID, even one below n (section 6.4.8 of RFC 3501). */
  function Search(msgs: map<nat, Mid>, q: SearchQuery): set<nat> {
    match q
    case Closed(lo, hi) => set u | u in msgs && lo <= u <= hi
    case Open(lo) => (set u | u in msgs && lo <= u) + (if msgs == map[] then {} else {Top(msgs.Keys)})
  }

  /** get_new_uids, whether or not the server reports UIDNEXT. */
  function NewUids(m: Mailbox, lastSynced: nat, reportsNext: bool): set<nat> {
    var q := NewUidQuery(lastSynced, if reportsNext then Some(m.uidNext) else None);
    if q.None? then {} else set u | u in Search(m.msgs, q.value) && u > lastSynced
  }

  /** Despite the open-ended range, exactly the existing UIDs above the cursor are new. */
  lemma NewUidsExact(m: Mailbox, lastSynced: nat, reportsNext: bool)
    requires ValidMailbox(m)
    ensures NewUids(m, lastSynced, reportsNext) == set u | u in m.msgs && u > lastSynced
  {}

  // Coverage ----------------------------------------------------------------------------------

  /** A message the folder's rows know: its email row and its body-queue row exist. */
  predicate Imported(f: Folder, validity: nat, u: nat, mid: Mid) {
    mid.Some? && mid.value in f.emails && QueueKey(u, validity, mid.value) in f.queued
  }

  /** Every message up to n with a usable Message-ID is imported. */
  predicate Covered(f: Folder, m: Mailbox, n: nat) {
    forall u :: u in m.msgs && u <= n && Usable(m.msgs[u]) ==> Imported(f, m.validity, u, m.msgs[u])
  }

  /** Every message up to n without one is recorded as missing. */
  predicate MissingKnown(f: Folder, m: Mailbox, n: nat) {
    forall u :: u in m.msgs && u <= n && !Usable(m.msgs[u]) ==> Place(u, m.validity) in f.missing
  }

  /** f' has every row of f that coverage looks at. */
  predicate Extends(f: Folder, f': Folder) {
    f.emails <= f'.emails && f.queued <= f'.queued && f.missing <= f'.missing
  }

  lemma ExtendsKeeps(f: Folder, f': Folder, m: Mailbox, n: nat)
    requires Extends(f, f')
    ensures Covered(f, m, n) ==> Covered(f', m, n)
    ensures MissingKnown(f, m, n) ==> MissingKnown(f', m, n)
  {}

  /** A batch adds exactly the Message-IDs in it that are more than white space, with a queue row for each UID. */
  lemma UpsertIsExact(f: Folder, batch: map<nat, Mid>, validity: nat)
    ensures var f' := Upserted(f, batch, validity);
            && (forall id :: id in f'.emails <==>
                  id in f.emails || exists u :: u in batch && batch[u] == Some(id) && exists c :: c in id && !IsWhitespace(c))
            && (forall k :: k in f'.queued <==>
                  || k in f.queued
                  || (k.uid in batch && k.validity == validity && batch[k.uid] == Some(k.messageId)
                      && exists c :: c in k.messageId && !IsWhitespace(c)))
            && f'.cursor == f.cursor && f'.validity == f.validity && f'.missing == f.missing
  {
    forall u | u in UsableOf(batch)
      ensures batch[u].value in MidsOf(batch) && QueueKey(u, validity, batch[u].value) in KeysFor(batch, validity)
    {
    }
    var f' := Upserted(f, batch, validity);
    forall id | exists u :: u in batch && batch[u] == Some(id) && exists c :: c in id && !IsWhitespace(c)
      ensures id in MidsOf(batch)
    {
      var u :| u in batch && batch[u] == Some(id);
      assert u in UsableOf(batch);
    }
    forall k: QueueKey | k.uid in batch && k.validity == validity && batch[k.uid] == Some(k.messageId)
               && exists c :: c in k.messageId && !IsWhitespace(c)
      ensures k in KeysFor(batch, validity)
    {
      assert k.uid in UsableOf(batch);
    }
  }

  /** Upserting a batch imports every usable message in it. */
  lemma UpsertImports(f: Folder, batch: map<nat, Mid>, validity: nat, u: nat)
    requires u in batch && Usable(batch[u])
    ensures Imported(Upserted(f, batch, validity), validity, u, batch[u])
    ensures Extends(f, Upserted(f, batch, validity))
  {
    assert u in UsableOf(batch);
    assert batch[u].value in MidsOf(batch);
    assert QueueKey(u, validity, batch[u].value) in KeysFor(batch, validity);
  }
}
