/** Full and incremental runs over one folder, interleaved, with crashes and a changing mailbox. */
module UidCursorProtocol {
  import opened Common
  import opened UidCursor

  /** What a fetch left in a run's hands. */
  datatype Fetched = Fetched(start: nat, validity: nat, uidEnd: nat, batch: map<nat, Mid>)

  /** The local state of a run between two statements. */
  datatype Run =
    | FullReady(start: nat)
    | FullFetched(got: Fetched)
    | FullChecked(got: Fetched)
    | FullRecorded(got: Fetched)
    | FullUpserted(got: Fetched)
    | IncReady(since: nat)
    | IncListed(since: nat, uids: set<nat>, todo: set<nat>, batch: map<nat, Mid>, validity: nat)
    | IncChecked(since: nat, uids: set<nat>, batch: map<nat, Mid>, validity: nat)
    | IncUpserted(since: nat, uids: set<nat>, batch: map<nat, Mid>, validity: nat)
    | Resetting(validity: nat, full: bool)

  datatype Sys = Sys(mailbox: Mailbox, folder: Folder, runs: map<nat, Run>, fullOnly: bool)

  datatype Step =
    | Deliver(uid: nat, mid: Mid)
    | Expunge(uid: nat)
    | Renumber(mailbox: Mailbox)
    | BeginFull(r: nat)
    | BeginInc(r: nat)
    | FetchChunk(r: nat, chunk: set<nat>)
    | Advance(r: nat)
    | Crash(r: nat)

  function Batch(run: Run): map<nat, Mid> {
    match run
    case FullFetched(got) => got.batch
    case FullChecked(got) => got.batch
    case FullRecorded(got) => got.batch
    case FullUpserted(got) => got.batch
    case IncListed(_, _, _, batch, _) => batch
    case IncChecked(_, _, batch, _) => batch
    case IncUpserted(_, _, batch, _) => batch
    case _ => map[]
  }

  predicate AtCheck(run: Run) { run.FullFetched? || (run.IncListed? && run.todo == {}) }

  function CheckedValidity(run: Run): nat
    requires AtCheck(run)
  {
    if run.FullFetched? then run.got.validity else run.validity
  }

  /** The environment keeps to section 2.3.1.1 of RFC 3501: UIDs ascend, a renumbering raises UIDVALIDITY. */
  predicate Enabled(s: Sys, step: Step) {
    match step
    case Deliver(uid, _) => s.mailbox.uidNext <= uid < UID_LIMIT - 1
    case Expunge(uid) => uid in s.mailbox.msgs
    case Renumber(m) => ValidMailbox(m) && m.validity > s.mailbox.validity
    case BeginFull(r) => r !in s.runs
    case BeginInc(r) => r !in s.runs && s.folder.cursor.Some?
    case FetchChunk(r, chunk) => r in s.runs && s.runs[r].IncListed? && chunk != {} && chunk <= s.runs[r].todo
    case Advance(r) => r in s.runs && !(s.runs[r].IncListed? && s.runs[r].todo != {})
    case Crash(r) => r in s.runs
  }

  function Continue(s: Sys, r: nat, f: Folder, run: Run): Sys { s.(folder := f, runs := s.runs[r := run]) }

  function Finish(s: Sys, r: nat, f: Folder): Sys { s.(folder := f, runs := s.runs - {r}) }

  /** The folder loop after the cursor write to c: go on behind c, or stop at uid_end. */
  function Wrote(s: Sys, r: nat, c: nat, uidEnd: nat): Sys {
    var f := s.folder.(cursor := Some(c));
    if c >= uidEnd then Finish(s, r, f) else Continue(s, r, f, FullReady(SatAdd32(c, 1)))
  }

  /** An empty range: end of mailbox, past the end, or skip the range. */
  function AfterEmpty(s: Sys, r: nat, got: Fetched): Sys {
    if got.uidEnd == 0 then Finish(s, r, s.folder.(cursor := Some(0)))
    else if got.start > got.uidEnd then Finish(s, r, s.folder)
    else Wrote(s, r, RangeEnd(got.start, got.uidEnd), got.uidEnd)
  }

  function AdvanceRun(s: Sys, r: nat): Sys
    requires r in s.runs && ValidMailbox(s.mailbox)
  {
    var f, m := s.folder, s.mailbox;
    match s.runs[r]
    case FullReady(start) =>
      Continue(s, r, f, FullFetched(Fetched(start, m.validity, Highest(m), FetchRange(m, start))))
    case FullFetched(got) =>
      var f' := f.(validity := Some(got.validity));
      Continue(s, r, f', if Mismatch(f, got.validity) then Resetting(got.validity, true) else FullChecked(got))
    case FullChecked(got) =>
      if got.batch == map[] then AfterEmpty(s, r, got)
      else Continue(s, r, MissingRecorded(f, Blanks(got.batch), got.validity), FullRecorded(got))
    case FullRecorded(got) =>
      if UsableOf(got.batch) == {} then
        if got.batch == map[] then Finish(s, r, f) else Wrote(s, r, Top(got.batch.Keys), got.uidEnd)
      else Continue(s, r, Upserted(f, got.batch, got.validity), FullUpserted(got))
    case FullUpserted(got) =>
      if UsableOf(got.batch) == {} then Finish(s, r, f) else Wrote(s, r, Top(UsableOf(got.batch)), got.uidEnd)
    case IncReady(since) =>
      var uids := NewUids(m, since, true);
      if uids == {} then Finish(s, r, f) else Continue(s, r, f, IncListed(since, uids, uids, map[], 0))
    case IncListed(since, uids, todo, batch, validity) =>
      var f' := f.(validity := Some(validity));
      Continue(s, r, f', if Mismatch(f, validity) then Resetting(validity, false) else IncChecked(since, uids, batch, validity))
    case IncChecked(since, uids, batch, validity) =>
      if UsableOf(batch) == {} then Finish(s, r, f)
      else Continue(s, r, Upserted(f, batch, validity), IncUpserted(since, uids, batch, validity))
    case IncUpserted(since, uids, batch, validity) =>
      if uids == {} then Finish(s, r, f) else Finish(s, r, f.(cursor := Some(Top(uids)))).(fullOnly := false)
    case Resetting(validity, full) =>
      var f' := f.(cursor := None, validity := Some(validity));
      if full then Continue(s, r, f', FullReady(1)) else Finish(s, r, f')
  }

  function Next(s: Sys, step: Step): Sys
    requires Enabled(s, step) && ValidMailbox(s.mailbox)
  {
    match step
    case Deliver(uid, mid) => s.(mailbox := s.mailbox.(uidNext := uid + 1, msgs := s.mailbox.msgs[uid := mid]))
    case Expunge(uid) => s.(mailbox := s.mailbox.(msgs := s.mailbox.msgs - {uid}))
    case Renumber(m) => s.(mailbox := m)
    case BeginFull(r) =>
      s.(runs := s.runs[r := FullReady(if s.folder.cursor.Some? then SatAdd32(s.folder.cursor.value, 1) else 1)])
    case BeginInc(r) => s.(runs := s.runs[r := IncReady(s.folder.cursor.value)])
    case FetchChunk(r, chunk) =>
      var run := s.runs[r];
      s.(runs := s.runs[r := run.(
        todo := run.todo - chunk,
        batch := run.batch + FetchUids(s.mailbox, chunk),
        validity := s.mailbox.validity)])
    case Advance(r) => AdvanceRun(s, r)
    case Crash(r) => s.(runs := s.runs - {r})
  }

  predicate ResetPending(s: Sys) { exists r :: r in s.runs && s.runs[r].Resetting? }

  predicate StartsReset(s: Sys, step: Step) {
    && step.Advance? && step.r in s.runs
    && AtCheck(s.runs[step.r]) && Mismatch(s.folder, CheckedValidity(s.runs[step.r]))
  }

  /** A reset begins only when no other run is in flight, and nothing but the mailbox interrupts it. */
  predicate Disciplined(s: Sys, step: Step) {
    && (forall r :: r in s.runs && s.runs[r].Resetting? ==>
          step.Deliver? || step.Expunge? || step.Renumber? || step == Advance(r))
    && (StartsReset(s, step) ==> s.runs.Keys == {step.r})
  }

  predicate Legal(s: Sys, steps: seq<Step>)
    requires ValidMailbox(s.mailbox)
    decreases |steps|
  {
    steps == [] || (Enabled(s, steps[0]) && ValidMailbox(Next(s, steps[0]).mailbox) && Legal(Next(s, steps[0]), steps[1..]))
  }

  function Exec(s: Sys, steps: seq<Step>): Sys
    requires ValidMailbox(s.mailbox) && Legal(s, steps)
    decreases |steps|
  {
    if steps == [] then s else Exec(Next(s, steps[0]), steps[1..])
  }

  predicate AllDisciplined(s: Sys, steps: seq<Step>)
    requires ValidMailbox(s.mailbox) && Legal(s, steps)
    decreases |steps|
  {
    steps == [] || (Disciplined(s, steps[0]) && AllDisciplined(Next(s, steps[0]), steps[1..]))
  }

  function Initial(m: Mailbox): Sys { Sys(m, Folder(None, None, {}, {}, {}), map[], true) }

  // The invariant -----------------------------------------------------------------------------

  /** Everything up to n is accounted for in the current epoch. */
  predicate Safe(s: Sys, n: nat) {
    n < s.mailbox.uidNext && Covered(s.folder, s.mailbox, n) && (s.fullOnly ==> MissingKnown(s.folder, s.mailbox, n))
  }

  /** The stored UIDVALIDITY is the mailbox's own. */
  predicate Current(s: Sys) { s.folder.validity == Some(s.mailbox.validity) }

  /** Between start and the end of the fetched range, the batch has every message there is. */
  predicate Snapshot(m: Mailbox, got: Fetched) {
    && got.uidEnd < m.uidNext
    && forall u :: u in m.msgs && got.start <= u <= RangeEnd(got.start, got.uidEnd) ==> u in got.batch && got.batch[u] == m.msgs[u]
  }

  predicate InRange(got: Fetched) {
    got.start >= 1 && got.uidEnd < UID_LIMIT && forall u :: u in got.batch ==> got.start <= u <= RangeEnd(got.start, got.uidEnd)
  }

  /** While the run's epoch is the mailbox's, its start is covered and its batch is complete. */
  predicate FullInv(s: Sys, got: Fetched) {
    && InRange(got)
    && got.validity <= s.mailbox.validity
    && s.folder.validity == Some(got.validity)
    && (Current(s) ==> Safe(s, got.start - 1) && Snapshot(s.mailbox, got))
  }

  /** The listed UIDs are all there is above since, and the batch has all of them that were asked for. */
  predicate IncInv(s: Sys, since: nat, uids: set<nat>, todo: set<nat>, batch: map<nat, Mid>) {
    && uids != {} && Top(uids) < UID_LIMIT
    && s.folder.validity.Some?
    && (Current(s) ==>
        && since < s.mailbox.uidNext && Covered(s.folder, s.mailbox, since)
        && Top(uids) < s.mailbox.uidNext
        && (forall u :: u in s.mailbox.msgs && since < u <= Top(uids) ==> u in uids)
        && (forall u :: u in s.mailbox.msgs && u in uids && u !in todo ==> u in batch && batch[u] == s.mailbox.msgs[u]))
  }

  predicate RunInv(s: Sys, run: Run) {
    match run
    case FullReady(start) =>
      start >= 1 && (s.folder.validity.None? ==> start == 1) && (Current(s) ==> Safe(s, start - 1))
    case FullFetched(got) =>
      && InRange(got)
      && 1 <= got.validity <= s.mailbox.validity
      && (s.folder.validity.None? ==> got.start == 1)
      && (got.validity == s.mailbox.validity ==> Snapshot(s.mailbox, got))
      && (Current(s) ==> Safe(s, got.start - 1))
    case FullChecked(got) => FullInv(s, got)
    case FullRecorded(got) =>
      FullInv(s, got) && (Current(s) ==> forall u :: u in Blanks(got.batch) ==> Place(u, got.validity) in s.folder.missing)
    case FullUpserted(got) =>
      && FullInv(s, got)
      && (Current(s) ==> forall u :: u in Blanks(got.batch) ==> Place(u, got.validity) in s.folder.missing)
      && (Current(s) ==> forall u :: u in UsableOf(got.batch) ==> Imported(s.folder, got.validity, u, got.batch[u]))
    case IncReady(since) =>
      s.folder.validity.Some? && (Current(s) ==> since < s.mailbox.uidNext && Covered(s.folder, s.mailbox, since))
    case IncListed(since, uids, todo, batch, validity) =>
      && IncInv(s, since, uids, todo, batch)
      && validity <= s.mailbox.validity && (todo != uids ==> validity >= 1)
      && todo <= uids
    case IncChecked(since, uids, batch, validity) =>
      IncInv(s, since, uids, {}, batch) && s.folder.validity == Some(validity)
    case IncUpserted(since, uids, batch, validity) =>
      && IncInv(s, since, uids, {}, batch) && s.folder.validity == Some(validity)
      && (Current(s) ==> forall u :: u in UsableOf(batch) ==> Imported(s.folder, validity, u, batch[u]))
    case Resetting(validity, full) =>
      s.folder.validity == Some(validity) && 1 <= validity <= s.mailbox.validity
  }

  predicate FolderInv(s: Sys) {
    && ValidMailbox(s.mailbox)
    && (s.folder.validity.Some? ==> 1 <= s.folder.validity.value <= s.mailbox.validity)
    && (s.folder.cursor.Some? ==> s.folder.validity.Some? && s.folder.cursor.value < UID_LIMIT)
    && (forall r, q :: r in s.runs && q in s.runs && s.runs[r].Resetting? ==> q == r)
    && (!ResetPending(s) && Current(s) && s.folder.cursor.Some? ==> Safe(s, s.folder.cursor.value))
  }

  predicate Inv(s: Sys) {
    FolderInv(s) && forall r :: r in s.runs ==> RunInv(s, s.runs[r])
  }

  // Every step keeps it -----------------------------------------------------------------------

  /** Within an epoch messages only go, or come above every UID assigned so far; else the epoch is new. */
  predicate Ages(m: Mailbox, m': Mailbox) {
    || m'.validity > m.validity
    || (m'.validity == m.validity && m.uidNext <= m'.uidNext
        && forall u :: u in m'.msgs ==> u >= m.uidNext || (u in m.msgs && m.msgs[u] == m'.msgs[u]))
  }

  lemma AgesKeepsSafe(s: Sys, m': Mailbox, n: nat)
    requires ValidMailbox(s.mailbox) && Ages(s.mailbox, m') && m'.validity == s.mailbox.validity && Safe(s, n)
    ensures Safe(s.(mailbox := m'), n)
  {}

  lemma AgesKeepsFull(s: Sys, m': Mailbox, run: Run)
    requires ValidMailbox(s.mailbox) && Ages(s.mailbox, m')
    requires s.folder.validity.Some? ==> s.folder.validity.value <= s.mailbox.validity
    requires RunInv(s, run) && (run.FullFetched? || run.FullChecked? || run.FullRecorded? || run.FullUpserted?)
    ensures RunInv(s.(mailbox := m'), run)
  {
    if m'.validity == s.mailbox.validity && Current(s) {
      AgesKeepsSafe(s, m', run.got.start - 1);
    }
  }

  lemma AgesKeepsRun(s: Sys, m': Mailbox, run: Run)
    requires ValidMailbox(s.mailbox) && Ages(s.mailbox, m')
    requires s.folder.validity.Some? ==> s.folder.validity.value <= s.mailbox.validity
    requires RunInv(s, run)
    ensures RunInv(s.(mailbox := m'), run)
  {
    match run
    case FullReady(start) =>
      if m'.validity == s.mailbox.validity && Current(s) {
        AgesKeepsSafe(s, m', start - 1);
      }
    case FullFetched(_) => AgesKeepsFull(s, m', run);
    case FullChecked(_) => AgesKeepsFull(s, m', run);
    case FullRecorded(_) => AgesKeepsFull(s, m', run);
    case FullUpserted(_) => AgesKeepsFull(s, m', run);
    case _ =>
  }

  lemma MailboxStep(s: Sys, step: Step)
    requires FolderInv(s) && Enabled(s, step) && (step.Deliver? || step.Expunge? || step.Renumber?)
    ensures var s' := Next(s, step); s' == s.(mailbox := s'.mailbox) && Ages(s.mailbox, s'.mailbox) && FolderInv(s')
  {
    var s' := Next(s, step);
    assert ResetPending(s') <==> ResetPending(s);
    if !ResetPending(s) && Current(s') && s.folder.cursor.Some? {
      AgesKeepsSafe(s, s'.mailbox, s.folder.cursor.value);
    }
  }

  /** Another run's statement, short of a reset, only adds rows; it may store the first UIDVALIDITY. */
  predicate Adds(s: Sys, s': Sys) {
    && s'.mailbox == s.mailbox
    && Extends(s.folder, s'.folder)
    && (s'.folder.validity == s.folder.validity || (s.folder.validity.None? && s'.folder.validity.Some?))
    && (s'.fullOnly ==> s.fullOnly)
  }

  lemma AddsKeepsRun(s: Sys, s': Sys, run: Run)
    requires ValidMailbox(s.mailbox) && Adds(s, s') && RunInv(s, run)
    ensures RunInv(s', run)
  {}

  // One lemma per statement of a run ----------------------------------------------------------

  /** What a statement of run r must leave: rows only added, r's own state right, the cursor covered. */
  predicate Kept(s: Sys, r: nat, s': Sys) {
    && Adds(s, s')
    && (s'.folder.validity.Some? ==> 1 <= s'.folder.validity.value <= s'.mailbox.validity)
    && (s'.folder.cursor.Some? ==> s'.folder.validity.Some? && s'.folder.cursor.value < UID_LIMIT)
    && (Current(s') && s'.folder.cursor.Some? ==> Safe(s', s'.folder.cursor.value))
    && s'.runs - {r} == s.runs - {r}
    && (r in s'.runs ==> RunInv(s', s'.runs[r]) && !s'.runs[r].Resetting?)
  }

  predicate Quiet(s: Sys, r: nat) { FolderInv(s) && !ResetPending(s) && r in s.runs && RunInv(s, s.runs[r]) }

  lemma FetchKept(s: Sys, r: nat)
    requires Quiet(s, r) && s.runs[r].FullReady?
    ensures Kept(s, r, AdvanceRun(s, r))
  {}

  lemma CheckKept(s: Sys, r: nat)
    requires Quiet(s, r) && AtCheck(s.runs[r]) && !Mismatch(s.folder, CheckedValidity(s.runs[r]))
    ensures Kept(s, r, AdvanceRun(s, r))
  {
    var s' := AdvanceRun(s, r);
    if s.folder.validity.None? {
      assert Current(s') ==> Safe(s', 0);
    }
  }

  /** Writing a cursor up to which all is safe. */
  lemma WroteKept(s: Sys, r: nat, c: nat, uidEnd: nat)
    requires Quiet(s, r) && s.folder.validity.Some? && c < UID_LIMIT && (Current(s) ==> Safe(s, c))
    ensures Kept(s, r, Wrote(s, r, c, uidEnd))
  {}

  lemma RangeEndBounds(start: nat, uidEnd: nat)
    requires 1 <= start <= uidEnd < UID_LIMIT
    ensures start <= RangeEnd(start, uidEnd) <= uidEnd
    ensures RangeEnd(start, uidEnd) == Min(start + BATCH_SIZE - 1, uidEnd)
  {}

  lemma EmptyKept(s: Sys, r: nat, got: Fetched)
    requires Quiet(s, r) && s.runs[r] == FullChecked(got) && got.batch == map[]
    ensures Kept(s, r, AdvanceRun(s, r))
  {
    if got.uidEnd != 0 && got.start <= got.uidEnd {
      RangeEndBounds(got.start, got.uidEnd);
      WroteKept(s, r, RangeEnd(got.start, got.uidEnd), got.uidEnd);
    }
  }

  lemma RecordKept(s: Sys, r: nat, got: Fetched)
    requires Quiet(s, r) && s.runs[r] == FullChecked(got) && got.batch != map[]
    ensures Kept(s, r, AdvanceRun(s, r))
  {
    var s' := AdvanceRun(s, r);
    AddsKeepsRun(s, s', FullChecked(got));
    forall u | u in Blanks(got.batch) ensures Place(u, got.validity) in s'.folder.missing {}
    if s.folder.cursor.Some? {
      ExtendsKeeps(s.folder, s'.folder, s.mailbox, s.folder.cursor.value);
    }
  }

  /** Rows for the whole batch make everything up to its last message safe, if no usable one comes later. */
  lemma BatchSafe(s: Sys, got: Fetched, c: nat)
    requires ValidMailbox(s.mailbox) && FullInv(s, got) && Current(s) && c in got.batch
    requires forall u :: u in Blanks(got.batch) ==> Place(u, got.validity) in s.folder.missing
    requires forall u :: u in UsableOf(got.batch) && u <= c ==> Imported(s.folder, got.validity, u, got.batch[u])
    requires RangeEnd(got.start, got.uidEnd) <= got.uidEnd
    ensures Safe(s, c)
  {
    forall u | u in s.mailbox.msgs && got.start <= u <= c
      ensures u in got.batch && got.batch[u] == s.mailbox.msgs[u] && (u in UsableOf(got.batch) || u in Blanks(got.batch)) {}
  }

  lemma UnimportableKept(s: Sys, r: nat, got: Fetched)
    requires Quiet(s, r) && s.runs[r] == FullRecorded(got) && UsableOf(got.batch) == {}
    ensures Kept(s, r, AdvanceRun(s, r))
  {
    if got.batch != map[] {
      var c := Top(got.batch.Keys);
      if Current(s) {
        BatchSafe(s, got, c);
      }
      WroteKept(s, r, c, got.uidEnd);
    }
  }

  lemma UpsertKept(s: Sys, r: nat, got: Fetched)
    requires Quiet(s, r) && s.runs[r] == FullRecorded(got) && UsableOf(got.batch) != {}
    ensures Kept(s, r, AdvanceRun(s, r))
  {
    var s' := AdvanceRun(s, r);
    assert Extends(s.folder, s'.folder);
    AddsKeepsRun(s, s', FullRecorded(got));
    forall u | u in UsableOf(got.batch) ensures Imported(s'.folder, got.validity, u, got.batch[u]) {
      UpsertImports(s.folder, got.batch, got.validity, u);
    }
    if s.folder.cursor.Some? {
      ExtendsKeeps(s.folder, s'.folder, s.mailbox, s.folder.cursor.value);
    }
  }

  lemma FullWriteKept(s: Sys, r: nat, got: Fetched)
    requires Quiet(s, r) && s.runs[r] == FullUpserted(got)
    ensures Kept(s, r, AdvanceRun(s, r))
  {
    if UsableOf(got.batch) != {} {
      var c := Top(UsableOf(got.batch));
      if Current(s) {
        BatchSafe(s, got, c);
      }
      WroteKept(s, r, c, got.uidEnd);
    }
  }

  lemma ListKept(s: Sys, r: nat, since: nat)
    requires Quiet(s, r) && s.runs[r] == IncReady(since)
    ensures Kept(s, r, AdvanceRun(s, r))
  {
    NewUidsExact(s.mailbox, since, true);
  }

  lemma ChunkKept(s: Sys, r: nat, chunk: set<nat>)
    requires Quiet(s, r) && Enabled(s, FetchChunk(r, chunk))
    ensures Kept(s, r, Next(s, FetchChunk(r, chunk)))
  {}

  lemma IncUpsertKept(s: Sys, r: nat)
    requires Quiet(s, r) && s.runs[r].IncChecked?
    ensures Kept(s, r, AdvanceRun(s, r))
  {
    var run, s' := s.runs[r], AdvanceRun(s, r);
    assert Extends(s.folder, s'.folder);
    AddsKeepsRun(s, s', run);
    forall u | r in s'.runs && u in UsableOf(run.batch) ensures Imported(s'.folder, run.validity, u, run.batch[u]) {
      UpsertImports(s.folder, run.batch, run.validity, u);
    }
    if s.folder.cursor.Some? {
      ExtendsKeeps(s.folder, s'.folder, s.mailbox, s.folder.cursor.value);
    }
  }

  lemma IncWriteKept(s: Sys, r: nat)
    requires Quiet(s, r) && s.runs[r].IncUpserted?
    ensures Kept(s, r, AdvanceRun(s, r))
  {
    var run, s' := s.runs[r], AdvanceRun(s, r);
    var c := Top(run.uids);
    if Current(s) {
      forall u | u in s.mailbox.msgs && u <= c && Usable(s.mailbox.msgs[u])
        ensures Imported(s.folder, s.mailbox.validity, u, s.mailbox.msgs[u])
      {
        if u > run.since { assert u in UsableOf(run.batch); }
      }
    }
  }

  lemma AdvanceKept(s: Sys, r: nat)
    requires Quiet(s, r) && Enabled(s, Advance(r)) && !StartsReset(s, Advance(r))
    ensures Kept(s, r, AdvanceRun(s, r))
  {
    assert !s.runs[r].Resetting?;
    match s.runs[r]
    case FullReady(_) => FetchKept(s, r);
    case FullFetched(_) => CheckKept(s, r);
    case IncListed(_, _, _, _, _) => CheckKept(s, r);
    case FullChecked(got) => if got.batch == map[] { EmptyKept(s, r, got); } else { RecordKept(s, r, got); }
    case FullRecorded(got) => if UsableOf(got.batch) == {} { UnimportableKept(s, r, got); } else { UpsertKept(s, r, got); }
    case FullUpserted(got) => FullWriteKept(s, r, got);
    case IncReady(since) => ListKept(s, r, since);
    case IncChecked(_, _, _, _) => IncUpsertKept(s, r);
    case IncUpserted(_, _, _, _) => IncWriteKept(s, r);
  }

  /** A statement that keeps its own run's claims keeps everybody's. */
  lemma KeptKeepsInv(s: Sys, r: nat, s': Sys)
    requires Inv(s) && !ResetPending(s) && Kept(s, r, s')
    ensures Inv(s')
  {
    forall q | q in s'.runs ensures RunInv(s', s'.runs[q]) && !s'.runs[q].Resetting? {
      if q != r {
        assert q in s'.runs - {r} && q in s.runs - {r} && s'.runs[q] == s.runs[q];
        AddsKeepsRun(s, s', s.runs[q]);
      }
    }
  }

  /** A run alone in flight stores a new UIDVALIDITY: from now on the reset is pending. */
  lemma ResetBeginsKeepsInv(s: Sys, step: Step)
    requires Inv(s) && Enabled(s, step) && StartsReset(s, step) && s.runs.Keys == {step.r} && !ResetPending(s)
    ensures Inv(Next(s, step))
  {
    var s' := Next(s, step);
    assert s'.runs.Keys == {step.r} && s'.runs[step.r].Resetting?;
    assert ResetPending(s');
  }

  lemma ResetEndsKeepsInv(s: Sys, r: nat)
    requires Inv(s) && r in s.runs && s.runs[r].Resetting?
    ensures Inv(AdvanceRun(s, r))
  {
    var s' := AdvanceRun(s, r);
    assert forall q :: q in s.runs ==> q == r;
    assert s'.folder.cursor.None?;
  }

  lemma BeginKept(s: Sys, step: Step)
    requires FolderInv(s) && !ResetPending(s) && Enabled(s, step) && (step.BeginFull? || step.BeginInc? || step.Crash?)
    ensures Kept(s, step.r, Next(s, step))
  {}

  lemma StepKeepsInv(s: Sys, step: Step)
    requires Inv(s) && Enabled(s, step) && Disciplined(s, step)
    ensures Inv(Next(s, step))
  {
    var s' := Next(s, step);
    if step.Deliver? || step.Expunge? || step.Renumber? {
      MailboxStep(s, step);
      forall q | q in s'.runs ensures RunInv(s', s'.runs[q]) {
        AgesKeepsRun(s, s'.mailbox, s.runs[q]);
      }
    } else if ResetPending(s) {
      var r :| r in s.runs && s.runs[r].Resetting?;
      ResetEndsKeepsInv(s, r);
    } else if step.Advance? {
      if StartsReset(s, step) {
        ResetBeginsKeepsInv(s, step);
      } else {
        AdvanceKept(s, step.r);
        KeptKeepsInv(s, step.r, s');
      }
    } else if step.FetchChunk? {
      ChunkKept(s, step.r, step.chunk);
      KeptKeepsInv(s, step.r, s');
    } else {
      BeginKept(s, step);
      KeptKeepsInv(s, step.r, s');
    }
  }

  lemma {:induction false} RunKeepsInv(s: Sys, steps: seq<Step>)
    requires Inv(s) && Legal(s, steps) && AllDisciplined(s, steps)
    ensures Inv(Exec(s, steps))
    decreases |steps|
  {
    if steps != [] {
      StepKeepsInv(s, steps[0]);
      RunKeepsInv(Next(s, steps[0]), steps[1..]);
    }
  }

  /**
   * The cursor never overtakes the data: after any disciplined interleaving, every message up to the
   * cursor with a usable Message-ID is imported, and without incremental writes every other one is
   * recorded as missing.
   */
  lemma CursorNeverOvertakesData(m: Mailbox, steps: seq<Step>)
    requires ValidMailbox(m) && Legal(Initial(m), steps) && AllDisciplined(Initial(m), steps)
    ensures var s := Exec(Initial(m), steps);
            !ResetPending(s) && Current(s) && s.folder.cursor.Some?
            ==> && s.folder.cursor.value < s.mailbox.uidNext
                && Covered(s.folder, s.mailbox, s.folder.cursor.value)
                && (s.fullOnly ==> MissingKnown(s.folder, s.mailbox, s.folder.cursor.value))
  {
    RunKeepsInv(Initial(m), steps);
  }
}
