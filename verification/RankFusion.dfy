/** Reciprocal rank fusion of the semantic and the lexical leg of hybrid retrieval. */
module RankFusion {
  import opened Common
  import opened Doubles
  import opened FusionScores

  /** A search result: the message it is about and everything else it carries. */
  datatype Record = Record(id: string, content: string)

  const CANDIDATE_MULTIPLIER: nat := 4
  const MAX_CANDIDATES: nat := 64

  // Scores ------------------------------------------------------------------------------------

  function IdsOf(rows: seq<Record>): set<string> {
    if rows == [] then {} else IdsOf(rows[..|rows| - 1]) + {rows[|rows| - 1].id}
  }

  /** The score of an id after the rows with this id have been added to it one by one. */
  function Total(rows: seq<Record>, id: string, weight: nat, start: nat): nat {
    if rows == [] then start
    else
      var last := |rows| - 1;
      var before := Total(rows[..last], id, weight, start);
      if rows[last].id == id then Plus(before, Worth(weight, last)) else before
  }

  function Score(semantic: seq<Record>, lexical: seq<Record>, id: string): nat {
    Total(lexical, id, WEIGHT_LEXICAL, Total(semantic, id, WEIGHT_SEMANTIC, 0))
  }

  /** The record of the first row with this id. */
  function FirstWith(rows: seq<Record>, id: string): Record
    requires id in IdsOf(rows)
  {
    var last := |rows| - 1;
    if id in IdsOf(rows[..last]) then FirstWith(rows[..last], id) else rows[last]
  }

  // The order of the fused list -----------------------------------------------------------------

  /** Lexicographic order by code point. */
  predicate StringLess(a: string, b: string) {
    b != [] && (a == [] || a[0] < b[0] || (a[0] == b[0] && StringLess(a[1..], b[1..])))
  }

  type Ranked = (string, nat)

  /** The higher score first, equal scores by id. */
  predicate Precedes(a: Ranked, b: Ranked) { a.1 > b.1 || (a.1 == b.1 && StringLess(a.0, b.0)) }

  /** It is: a proper prefix, or less at the first difference. */
  predicate LessAt(a: string, b: string, k: nat) {
    k < |b| && k <= |a| && (forall i :: 0 <= i < k ==> a[i] == b[i]) && (k == |a| || (a[k] as int) < b[k] as int)
  }

  lemma {:induction false} StringLessIff(a: string, b: string)
    ensures StringLess(a, b) <==> exists k :: LessAt(a, b, k)
  {
    if a == [] || b == [] || a[0] != b[0] {
      if b != [] && (a == [] || a[0] < b[0]) { assert LessAt(a, b, 0); }
      forall k: nat | LessAt(a, b, k) ensures k == 0 { }
    } else {
      StringLessIff(a[1..], b[1..]);
      if k: nat :| LessAt(a[1..], b[1..], k) {
        forall i | 0 <= i < k + 1 ensures a[i] == b[i] { if i > 0 { assert a[1..][i - 1] == b[1..][i - 1]; } }
        assert LessAt(a, b, k + 1);
      }
      if k: nat :| LessAt(a, b, k) {
        assert k > 0;
        assert LessAt(a[1..], b[1..], k - 1);
      }
    }
  }

  lemma {:induction false} StringLessTotal(a: string, b: string)
    ensures a == b || StringLess(a, b) || StringLess(b, a)
    ensures !(StringLess(a, b) && StringLess(b, a)) && !StringLess(a, a)
  {
    if a != [] && b != [] {
      assert a == [a[0]] + a[1..] && b == [b[0]] + b[1..];
      StringLessTotal(a[1..], b[1..]);
    }
    if a != [] { StringLessTotal(a[1..], a[1..]); }
  }

  lemma {:induction false} StringLessTransitive(a: string, b: string, c: string)
    requires StringLess(a, b) && StringLess(b, c)
    ensures StringLess(a, c)
  {
    if a != [] && a[0] == b[0] == c[0] { StringLessTransitive(a[1..], b[1..], c[1..]); }
  }

  lemma PrecedesTransitive(a: Ranked, b: Ranked, c: Ranked)
    requires Precedes(a, b) && Precedes(b, c)
    ensures Precedes(a, c)
  {
    if a.1 == b.1 == c.1 { StringLessTransitive(a.0, b.0, c.0); }
  }

  predicate InOrder(s: seq<Ranked>) { forall i, j :: 0 <= i < j < |s| ==> Precedes(s[i], s[j]) }

  // The library's sort, on entries with different ids -------------------------------------------

  function Entries(s: seq<Ranked>): set<Ranked> { set e | e in s }

  function Insert(e: Ranked, s: seq<Ranked>): seq<Ranked> {
    if s == [] then [e] else if Precedes(e, s[0]) then [e] + s else [s[0]] + Insert(e, s[1..])
  }

  function Sort(s: seq<Ranked>): seq<Ranked> {
    if s == [] then [] else Insert(s[0], Sort(s[1..]))
  }

  lemma {:induction false} InsertKeepsEntries(e: Ranked, s: seq<Ranked>)
    ensures Entries(Insert(e, s)) == Entries(s) + {e}
  {
    if s != [] {
      assert s == [s[0]] + s[1..];
      InsertKeepsEntries(e, s[1..]);
      assert forall x :: x in Insert(e, s[1..]) <==> x in Entries(Insert(e, s[1..]));
    }
  }

  lemma {:induction false} InsertKeepsOrder(e: Ranked, s: seq<Ranked>)
    requires InOrder(s) && forall x :: x in s ==> x.0 != e.0
    ensures InOrder(Insert(e, s))
  {
    if s == [] {
    } else if Precedes(e, s[0]) {
      forall j | 0 < j < |s| ensures Precedes(e, s[j]) { PrecedesTransitive(e, s[0], s[j]); }
    } else {
      StringLessTotal(e.0, s[0].0);
      InsertKeepsOrder(e, s[1..]);
      InsertKeepsEntries(e, s[1..]);
      var t := Insert(e, s[1..]);
      forall j | 0 <= j < |t| ensures Precedes(s[0], t[j]) { assert t[j] in Entries(t); }
    }
  }

  lemma {:induction false} SortSorts(s: seq<Ranked>)
    requires forall i, j :: 0 <= i < j < |s| ==> s[i].0 != s[j].0
    ensures InOrder(Sort(s))
    ensures forall e :: e in Sort(s) <==> e in s
  {
    if s != [] {
      SortSorts(s[1..]);
      InsertKeepsOrder(s[0], Sort(s[1..]));
      InsertKeepsEntries(s[0], Sort(s[1..]));
      assert s == [s[0]] + s[1..];
      assert forall e :: e in Sort(s) <==> e in Entries(Sort(s));
    }
  }

  // What a fused list is ------------------------------------------------------------------------

  function AllIds(semantic: seq<Record>, lexical: seq<Record>): set<string> { IdsOf(semantic) + IdsOf(lexical) }

  function Entry(semantic: seq<Record>, lexical: seq<Record>, id: string): Ranked {
    (id, Score(semantic, lexical, id))
  }

  /** The record the output carries: the semantic one when there is one, else the lexical one. */
  function Chosen(semantic: seq<Record>, lexical: seq<Record>, id: string): Record
    requires id in AllIds(semantic, lexical)
  {
    if id in IdsOf(semantic) then FirstWith(semantic, id) else FirstWith(lexical, id)
  }

  /** Id a ranks before id b. */
  predicate Outranks(semantic: seq<Record>, lexical: seq<Record>, a: string, b: string) {
    Precedes(Entry(semantic, lexical, a), Entry(semantic, lexical, b))
  }

  /** The best ids, best first, each once, with the chosen record; nothing better is left out. */
  ghost predicate IsFusion(fused: seq<Record>, semantic: seq<Record>, lexical: seq<Record>, limit: nat) {
    && |fused| == Min(limit, |AllIds(semantic, lexical)|)
    && (forall i :: 0 <= i < |fused| ==>
          fused[i].id in AllIds(semantic, lexical) && fused[i] == Chosen(semantic, lexical, fused[i].id))
    && (forall i, j :: 0 <= i < j < |fused| ==> Outranks(semantic, lexical, fused[i].id, fused[j].id))
    && (forall i, id | 0 <= i < |fused| && id in AllIds(semantic, lexical) ::
          (exists j :: 0 <= j < |fused| && fused[j].id == id) || Outranks(semantic, lexical, fused[i].id, id))
  }

  // The code ------------------------------------------------------------------------------------

  function ScoreIn(scores: map<string, nat>, id: string): nat { if id in scores then scores[id] else 0 }

  /** The maps after a leg's rows have been added to them. */
  ghost predicate Added(rows: seq<Record>, weight: nat, scores: map<string, nat>, records: map<string, Record>,
                        scores': map<string, nat>, records': map<string, Record>)
    requires scores.Keys == records.Keys
  {
    && scores'.Keys == records'.Keys == scores.Keys + IdsOf(rows)
    && (forall id :: id in scores' ==> scores'[id] == Total(rows, id, weight, ScoreIn(scores, id)))
    && (forall id :: id in records' ==> records'[id] == if id in records then records[id] else FirstWith(rows, id))
  }

  lemma AddedRow(rows: seq<Record>, weight: nat, scores: map<string, nat>, records: map<string, Record>,
                 scores': map<string, nat>, records': map<string, Record>, row: Record)
    requires scores.Keys == records.Keys && Added(rows, weight, scores, records, scores', records')
    ensures Added(rows + [row], weight, scores, records,
                  scores'[row.id := Plus(ScoreIn(scores', row.id), Worth(weight, |rows|))],
                  if row.id in records' then records' else records'[row.id := row])
  {
    assert (rows + [row])[..|rows|] == rows;
    TotalOfStranger(rows, row.id, weight, ScoreIn(scores, row.id));
  }

  /** Adding the row at this rank. */
  lemma AddedNext(rows: seq<Record>, rank: nat, weight: nat, scores: map<string, nat>, records: map<string, Record>,
                  scores1: map<string, nat>, records1: map<string, Record>, scores': map<string, nat>, records': map<string, Record>)
    requires rank < |rows| && scores.Keys == records.Keys && Added(rows[..rank], weight, scores, records, scores1, records1)
    requires scores' == scores1[rows[rank].id := Plus(ScoreIn(scores1, rows[rank].id), Worth(weight, rank))]
    requires records' == if rows[rank].id in records1 then records1 else records1[rows[rank].id := rows[rank]]
    ensures Added(rows[..rank + 1], weight, scores, records, scores', records')
  {
    AddedRow(rows[..rank], weight, scores, records, scores1, records1, rows[rank]);
    assert rows[..rank + 1] == rows[..rank] + [rows[rank]];
  }

  method AddRow(row: Record, worth: nat, scores: map<string, nat>, records: map<string, Record>)
    returns (scores': map<string, nat>, records': map<string, Record>)
    ensures scores' == scores[row.id := Plus(ScoreIn(scores, row.id), worth)]
    ensures records' == if row.id in records then records else records[row.id := row]
  {
    scores', records' := scores, records;
    if row.id !in scores' { scores' := scores'[row.id := 0]; }
    scores' := scores'[row.id := Plus(scores'[row.id], worth)];
    if row.id !in records' { records' := records'[row.id := row]; }
  }

  /** One of the two loops that fill the maps. */
  method AddLeg(rows: seq<Record>, weight: nat, scores: map<string, nat>, records: map<string, Record>)
    returns (scores': map<string, nat>, records': map<string, Record>)
    requires scores.Keys == records.Keys
    ensures Added(rows, weight, scores, records, scores', records')
  {
    scores', records' := scores, records;
    AddedNothing(rows, weight, scores, records);
    for rank := 0 to |rows|
      invariant scores'.Keys == records'.Keys && Added(rows[..rank], weight, scores, records, scores', records')
    {
      scores', records' := AddNext(rows, rank, weight, scores, records, scores', records');
    }
    WholeLeg(rows, weight, scores, records, scores', records');
  }

  lemma AddedNothing(rows: seq<Record>, weight: nat, scores: map<string, nat>, records: map<string, Record>)
    requires scores.Keys == records.Keys
    ensures Added(rows[..0], weight, scores, records, scores, records)
  {
  }

  lemma WholeLeg(rows: seq<Record>, weight: nat, scores: map<string, nat>, records: map<string, Record>,
                 scores': map<string, nat>, records': map<string, Record>)
    requires scores.Keys == records.Keys && Added(rows[..|rows|], weight, scores, records, scores', records')
    ensures Added(rows, weight, scores, records, scores', records')
  {
    assert rows[..|rows|] == rows;
  }

  /** One pass of the loop. */
  method AddNext(rows: seq<Record>, rank: nat, weight: nat, ghost scores: map<string, nat>, ghost records: map<string, Record>,
                 scores1: map<string, nat>, records1: map<string, Record>)
    returns (scores': map<string, nat>, records': map<string, Record>)
    requires rank < |rows| && scores.Keys == records.Keys && Added(rows[..rank], weight, scores, records, scores1, records1)
    ensures scores'.Keys == records'.Keys && Added(rows[..rank + 1], weight, scores, records, scores', records')
  {
    scores', records' := AddRow(rows[rank], Worth(weight, rank), scores1, records1);
    AddedNext(rows, rank, weight, scores, records, scores1, records1, scores', records');
  }

  /** The entries of the map in whatever order its iterator yields them. */
  method Collect(scores: map<string, nat>) returns (ranked: seq<Ranked>)
    ensures forall i, j :: 0 <= i < j < |ranked| ==> ranked[i].0 != ranked[j].0
    ensures forall e :: e in ranked <==> e.0 in scores && scores[e.0] == e.1
  {
    ranked := [];
    var left := scores.Keys;
    while left != {}
      invariant left <= scores.Keys
      invariant forall i, j :: 0 <= i < j < |ranked| ==> ranked[i].0 != ranked[j].0
      invariant forall e :: e in ranked <==> e.0 in scores && e.0 !in left && scores[e.0] == e.1
      decreases |left|
    {
      var id :| id in left;
      ranked := ranked + [(id, scores[id])];
      left := left - {id};
    }
  }

  method FuseHybridResults(semantic: seq<Record>, lexical: seq<Record>, limit: nat) returns (fused: seq<Record>)
    ensures limit == 0 ==> fused == []
    ensures semantic == [] ==> fused == lexical[..Min(limit, |lexical|)]
    ensures lexical == [] ==> fused == semantic[..Min(limit, |semantic|)]
    ensures semantic != [] && lexical != [] ==> IsFusion(fused, semantic, lexical, limit)
  {
    if limit == 0 { return []; }
    if semantic == [] { return Take(lexical, limit); }
    if lexical == [] { return Take(semantic, limit); }
    var scores, records := AddLeg(semantic, WEIGHT_SEMANTIC, map[], map[]);
    ghost var scores1, records1 := scores, records;
    scores, records := AddLeg(lexical, WEIGHT_LEXICAL, scores, records);
    BothLegs(semantic, lexical, scores1, records1, scores, records);
    fused := TakeBest(semantic, lexical, scores, records, limit);
  }

  /** With both legs added every id has its score and its chosen record. */
  lemma BothLegs(semantic: seq<Record>, lexical: seq<Record>, scores: map<string, nat>, records: map<string, Record>,
                 scores': map<string, nat>, records': map<string, Record>)
    requires Added(semantic, WEIGHT_SEMANTIC, map[], map[], scores, records)
    requires scores.Keys == records.Keys && Added(lexical, WEIGHT_LEXICAL, scores, records, scores', records')
    ensures scores'.Keys == records'.Keys == AllIds(semantic, lexical)
    ensures forall id :: id in scores' ==> scores'[id] == Score(semantic, lexical, id)
    ensures forall id :: id in records' ==> records'[id] == Chosen(semantic, lexical, id)
  {
    forall id | id in scores' ensures scores'[id] == Score(semantic, lexical, id) {
      TotalOfStranger(semantic, id, WEIGHT_SEMANTIC, 0);
    }
  }

  method TakeBest(ghost semantic: seq<Record>, ghost lexical: seq<Record>, scores: map<string, nat>,
                  records: map<string, Record>, limit: nat) returns (fused: seq<Record>)
    requires limit > 0 && scores.Keys == records.Keys == AllIds(semantic, lexical)
    requires forall id :: id in scores ==> scores[id] == Score(semantic, lexical, id)
    requires forall id :: id in records ==> records[id] == Chosen(semantic, lexical, id)
    ensures IsFusion(fused, semantic, lexical, limit)
  {
    var ranked := RankAll(scores, semantic, lexical);
    CompleteIsDistinct(ranked, semantic, lexical);
    fused := PushBest(ranked, records, limit);
    forall j | 0 <= j < |fused| ensures ranked[j] in ranked && fused[j].id == ranked[j].0 {
      ChosenHasId(semantic, lexical, ranked[j].0);
    }
    RankedPrefixIsFusion(ranked, fused, semantic, lexical, limit);
  }

  /** The entries sorted. */
  method RankAll(scores: map<string, nat>, ghost semantic: seq<Record>, ghost lexical: seq<Record>)
    returns (ranked: seq<Ranked>)
    requires scores.Keys == AllIds(semantic, lexical)
    requires forall id :: id in scores ==> scores[id] == Score(semantic, lexical, id)
    ensures Complete(ranked, semantic, lexical)
  {
    ranked := Collect(scores);
    SortSorts(ranked);
    ranked := Sort(ranked);
  }

  /** The records of the first entries, taken out of the map one by one. */
  method PushBest(ranked: seq<Ranked>, records: map<string, Record>, limit: nat) returns (fused: seq<Record>)
    requires limit > 0
    requires forall i, j :: 0 <= i < j < |ranked| ==> ranked[i].0 != ranked[j].0
    requires forall i :: 0 <= i < |ranked| ==> ranked[i].0 in records
    ensures |fused| == Min(limit, |ranked|)
    ensures forall i :: 0 <= i < |fused| ==> fused[i] == records[ranked[i].0]
  {
    fused := [];
    var left := records;
    for i := 0 to |ranked|
      invariant |fused| == i < limit
      invariant forall j :: 0 <= j < i ==> fused[j] == records[ranked[j].0]
      invariant forall j :: i <= j < |ranked| ==> ranked[j].0 in left && left[ranked[j].0] == records[ranked[j].0]
    {
      var id := ranked[i].0;
      if id in left {
        fused := fused + [left[id]];
        left := left - {id};
        if |fused| >= limit { break; }
      }
    }
  }

  /** Iterator::take. */
  function Take(rows: seq<Record>, limit: nat): seq<Record> { rows[..Min(limit, |rows|)] }

  /** How many candidates each leg is asked for: enough to fill the limit, and no more than 64 beyond it. */
  function HybridCandidateLimit(limit: nat): (n: nat)
    ensures n >= limit && n >= Min(4 * Max(limit, 1), 64)
    ensures n > limit ==> n <= 64 && n <= 4 * Max(limit, 1)
  {
    Max(Min(Max(limit, 1) * CANDIDATE_MULTIPLIER, MAX_CANDIDATES), limit)
  }

  lemma {:induction false} TotalOfStranger(rows: seq<Record>, id: string, weight: nat, start: nat)
    ensures id !in IdsOf(rows) ==> Total(rows, id, weight, start) == start
  {
    if rows != [] { TotalOfStranger(rows[..|rows| - 1], id, weight, start); }
  }

  lemma {:induction false} FirstHasId(rows: seq<Record>, id: string)
    requires id in IdsOf(rows)
    ensures FirstWith(rows, id).id == id && FirstWith(rows, id) in rows
  {
    var last := |rows| - 1;
    if id in IdsOf(rows[..last]) { FirstHasId(rows[..last], id); }
  }

  lemma ChosenHasId(semantic: seq<Record>, lexical: seq<Record>, id: string)
    requires id in AllIds(semantic, lexical)
    ensures Chosen(semantic, lexical, id).id == id
  {
    if id in IdsOf(semantic) { FirstHasId(semantic, id); } else { FirstHasId(lexical, id); }
  }

  /** The sorted list holds every id once with its score. */
  ghost predicate Complete(ranked: seq<Ranked>, semantic: seq<Record>, lexical: seq<Record>) {
    && InOrder(ranked)
    && (forall e :: e in ranked ==> e.0 in AllIds(semantic, lexical) && e == Entry(semantic, lexical, e.0))
    && (forall id :: id in AllIds(semantic, lexical) ==> Entry(semantic, lexical, id) in ranked)
  }

  lemma CompleteIsDistinct(ranked: seq<Ranked>, semantic: seq<Record>, lexical: seq<Record>)
    requires Complete(ranked, semantic, lexical)
    ensures forall i, j :: 0 <= i < j < |ranked| ==> ranked[i].0 != ranked[j].0
    ensures forall i :: 0 <= i < |ranked| ==> ranked[i].0 in AllIds(semantic, lexical)
  {
    forall i, j | 0 <= i < j < |ranked| ensures ranked[i].0 != ranked[j].0 {
      StringLessTotal(ranked[i].0, ranked[j].0);
      assert Precedes(ranked[i], ranked[j]) && ranked[i] in ranked && ranked[j] in ranked;
    }
    forall i | 0 <= i < |ranked| ensures ranked[i].0 in AllIds(semantic, lexical) { assert ranked[i] in ranked; }
  }

  function RankedIds(ranked: seq<Ranked>): set<string> {
    if ranked == [] then {} else RankedIds(ranked[1..]) + {ranked[0].0}
  }

  lemma {:induction false} RankedIdsAre(ranked: seq<Ranked>)
    ensures forall id :: id in RankedIds(ranked) <==> exists i :: 0 <= i < |ranked| && ranked[i].0 == id
  {
    if ranked != [] {
      var rest := ranked[1..];
      RankedIdsAre(rest);
      forall id ensures id in RankedIds(ranked) <==> exists i :: 0 <= i < |ranked| && ranked[i].0 == id {
        if id in RankedIds(rest) {
          var i :| 0 <= i < |rest| && rest[i].0 == id;
          assert ranked[i + 1].0 == id;
        }
        if i :| 0 <= i < |ranked| && ranked[i].0 == id && i > 0 { assert rest[i - 1].0 == id; }
      }
    }
  }

  lemma {:induction false} RankedIdsSize(ranked: seq<Ranked>)
    requires forall i, j :: 0 <= i < j < |ranked| ==> ranked[i].0 != ranked[j].0
    ensures |RankedIds(ranked)| == |ranked|
  {
    if ranked != [] {
      var rest := ranked[1..];
      assert forall i :: 0 <= i < |rest| ==> rest[i] == ranked[i + 1];
      RankedIdsSize(rest);
      RankedIdsAre(rest);
      assert ranked[0].0 !in RankedIds(rest);
    }
  }

  lemma CompleteSize(ranked: seq<Ranked>, semantic: seq<Record>, lexical: seq<Record>)
    requires Complete(ranked, semantic, lexical)
    ensures |ranked| == |AllIds(semantic, lexical)|
  {
    CompleteIsDistinct(ranked, semantic, lexical);
    RankedIdsSize(ranked);
    RankedIdsAre(ranked);
    forall id | id in AllIds(semantic, lexical) ensures id in RankedIds(ranked) {
      var i :| 0 <= i < |ranked| && ranked[i] == Entry(semantic, lexical, id);
    }
    forall id | id in RankedIds(ranked) ensures id in AllIds(semantic, lexical) {
      var i :| 0 <= i < |ranked| && ranked[i].0 == id;
      assert ranked[i] in ranked;
    }
    assert RankedIds(ranked) == AllIds(semantic, lexical);
  }

  lemma RankedPrefixIsFusion(ranked: seq<Ranked>, fused: seq<Record>, semantic: seq<Record>, lexical: seq<Record>, limit: nat)
    requires Complete(ranked, semantic, lexical)
    requires |fused| == Min(limit, |ranked|)
    requires forall j :: 0 <= j < |fused| ==>
      ranked[j] in ranked && fused[j].id == ranked[j].0 && fused[j] == Chosen(semantic, lexical, ranked[j].0)
    ensures IsFusion(fused, semantic, lexical, limit)
  {
    CompleteSize(ranked, semantic, lexical);
    forall i, j | 0 <= i < j < |fused| ensures Outranks(semantic, lexical, fused[i].id, fused[j].id) {
      assert ranked[i] in ranked && ranked[j] in ranked;
    }
    forall i, id | 0 <= i < |fused| && id in AllIds(semantic, lexical)
      ensures (exists j :: 0 <= j < |fused| && fused[j].id == id) || Outranks(semantic, lexical, fused[i].id, id)
    {
      var k :| 0 <= k < |ranked| && ranked[k] == Entry(semantic, lexical, id);
      assert ranked[i] in ranked;
      if k < |fused| { assert fused[k].id == id; } else { assert Precedes(ranked[i], ranked[k]); }
    }
  }

  // The result does not depend on the order of the map's iterator ---------------------------------

  lemma FusionOrdered(fused: seq<Record>, semantic: seq<Record>, lexical: seq<Record>, limit: nat, i: nat, j: nat)
    requires IsFusion(fused, semantic, lexical, limit) && i < |fused| && j < |fused|
    requires Outranks(semantic, lexical, fused[i].id, fused[j].id)
    ensures i < j
  {
    StringLessTotal(fused[i].id, fused[j].id);
  }

  /** An id that ranks before the row at k is in the list, before k. */
  lemma NothingBetterMissing(fused: seq<Record>, semantic: seq<Record>, lexical: seq<Record>, limit: nat, k: nat, id: string)
    requires IsFusion(fused, semantic, lexical, limit) && k < |fused|
    requires id in AllIds(semantic, lexical) && Outranks(semantic, lexical, id, fused[k].id)
    ensures exists j :: 0 <= j < k && fused[j].id == id
  {
    StringLessTotal(id, fused[k].id);
    assert !Outranks(semantic, lexical, fused[k].id, id);
    var j :| 0 <= j < |fused| && fused[j].id == id;
    FusionOrdered(fused, semantic, lexical, limit, j, k);
  }

  /** Where two fusions agree up to k, the row of the one at k does not outrank the row of the other. */
  lemma NeitherIsBetter(a: seq<Record>, b: seq<Record>, semantic: seq<Record>, lexical: seq<Record>, limit: nat, k: nat)
    requires IsFusion(a, semantic, lexical, limit) && IsFusion(b, semantic, lexical, limit)
    requires k < |a| && forall j :: 0 <= j < k ==> a[j] == b[j]
    ensures !Outranks(semantic, lexical, a[k].id, b[k].id)
  {
    if Outranks(semantic, lexical, a[k].id, b[k].id) {
      NothingBetterMissing(b, semantic, lexical, limit, k, a[k].id);
      var j :| 0 <= j < k && b[j].id == a[k].id;
      StringLessTotal(a[j].id, a[k].id);
    }
  }

  lemma {:induction false} FusionsAgreeAt(a: seq<Record>, b: seq<Record>, semantic: seq<Record>, lexical: seq<Record>, limit: nat, k: nat)
    requires IsFusion(a, semantic, lexical, limit) && IsFusion(b, semantic, lexical, limit) && k < |a|
    ensures a[k] == b[k]
    decreases k
  {
    forall j | 0 <= j < k ensures a[j] == b[j] { FusionsAgreeAt(a, b, semantic, lexical, limit, j); }
    NeitherIsBetter(a, b, semantic, lexical, limit, k);
    NeitherIsBetter(b, a, semantic, lexical, limit, k);
    StringLessTotal(a[k].id, b[k].id);
  }

  /** The two lists and the limit determine the fused list, in whatever order the maps are walked. */
  lemma FusionIsUnique(a: seq<Record>, b: seq<Record>, semantic: seq<Record>, lexical: seq<Record>, limit: nat)
    requires IsFusion(a, semantic, lexical, limit) && IsFusion(b, semantic, lexical, limit)
    ensures a == b
  {
    forall k | 0 <= k < |a| ensures a[k] == b[k] { FusionsAgreeAt(a, b, semantic, lexical, limit, k); }
  }

  // Lists without duplicates ----------------------------------------------------------------------

  predicate Distinct(rows: seq<Record>) { forall i, j :: 0 <= i < j < |rows| ==> rows[i].id != rows[j].id }

  /** The rank of an id, the length of the list when it is absent. */
  function RankOf(rows: seq<Record>, id: string): nat {
    if rows == [] then 0 else if rows[0].id == id then 0 else 1 + RankOf(rows[1..], id)
  }

  lemma {:induction false} IdsOfIsExact(rows: seq<Record>)
    ensures forall id :: id in IdsOf(rows) <==> exists i :: 0 <= i < |rows| && rows[i].id == id
  {
    if rows != [] {
      var last := |rows| - 1;
      IdsOfIsExact(rows[..last]);
      forall id ensures id in IdsOf(rows) <==> exists i :: 0 <= i < |rows| && rows[i].id == id {
        if id in IdsOf(rows[..last]) {
          var i :| 0 <= i < last && rows[..last][i].id == id;
          assert rows[i].id == id;
        }
        if i :| 0 <= i < last && rows[i].id == id { assert rows[..last][i].id == id; }
      }
    }
  }

  lemma LastIsNew(rows: seq<Record>)
    requires rows != []
    ensures Distinct(rows) <==> Distinct(rows[..|rows| - 1]) && rows[|rows| - 1].id !in IdsOf(rows[..|rows| - 1])
  {
    var last := |rows| - 1;
    var init := rows[..last];
    IdsOfIsExact(init);
    if Distinct(init) && rows[last].id !in IdsOf(init) {
      forall i, j | 0 <= i < j < |rows| ensures rows[i].id != rows[j].id {
        assert init[i] == rows[i] && (j < last ==> init[j] == rows[j]);
      }
    }
    if rows[last].id in IdsOf(init) {
      var i :| 0 <= i < last && init[i].id == rows[last].id;
      assert rows[i].id == rows[last].id;
    }
  }

  lemma {:induction false} DistinctBySize(rows: seq<Record>)
    ensures |IdsOf(rows)| <= |rows|
    ensures |IdsOf(rows)| == |rows| <==> Distinct(rows)
  {
    if rows != [] {
      DistinctBySize(rows[..|rows| - 1]);
      LastIsNew(rows);
    }
  }

  /** Where an id stands: at its rank, or nowhere. */
  lemma {:induction false} RankIsExact(rows: seq<Record>, id: string)
    ensures RankOf(rows, id) <= |rows|
    ensures RankOf(rows, id) < |rows| ==> rows[RankOf(rows, id)].id == id
    ensures forall i :: 0 <= i < RankOf(rows, id) ==> rows[i].id != id
  {
    if rows != [] && rows[0].id != id {
      RankIsExact(rows[1..], id);
      forall i | 0 <= i < RankOf(rows, id) ensures rows[i].id != id {
        if i > 0 { assert rows[1..][i - 1] == rows[i]; }
      }
    }
  }

  lemma {:induction false} FirstOfRank(rows: seq<Record>, i: nat)
    requires Distinct(rows) && i < |rows|
    ensures rows[i].id in IdsOf(rows) && FirstWith(rows, rows[i].id) == rows[i]
  {
    var last := |rows| - 1;
    LastIsNew(rows);
    if i < last {
      assert rows[..last][i] == rows[i];
      FirstOfRank(rows[..last], i);
    }
  }

  /** The record of an id is that of the first row with it, a semantic one if there is any. */
  lemma ChosenIsFirst(semantic: seq<Record>, lexical: seq<Record>, id: string)
    requires id in AllIds(semantic, lexical)
    ensures var i, j := RankOf(semantic, id), RankOf(lexical, id);
            if i < |semantic| then Chosen(semantic, lexical, id) == semantic[i]
            else j < |lexical| && Chosen(semantic, lexical, id) == lexical[j]
  {
    FirstStandsAtRank(semantic, id);
    FirstStandsAtRank(lexical, id);
  }

  lemma {:induction false} FirstStandsAtRank(rows: seq<Record>, id: string)
    ensures id in IdsOf(rows) <==> RankOf(rows, id) < |rows|
    ensures id in IdsOf(rows) ==> FirstWith(rows, id) == rows[RankOf(rows, id)]
  {
    IdsOfIsExact(rows);
    RankIsExact(rows, id);
    if rows != [] {
      var last := |rows| - 1;
      FirstStandsAtRank(rows[..last], id);
      RankIsExact(rows[..last], id);
      if RankOf(rows[..last], id) < last { RankOfPrefix(rows, last, id); }
    }
  }

  lemma RankOfPrefix(rows: seq<Record>, n: nat, id: string)
    requires n <= |rows| && RankOf(rows[..n], id) < n
    ensures RankOf(rows, id) == RankOf(rows[..n], id)
  {
    var k := RankOf(rows[..n], id);
    RankIsExact(rows[..n], id);
    RankIsExact(rows, id);
    assert rows[k].id == id;
    forall i | 0 <= i < k ensures rows[i].id != id { assert rows[..n][i] == rows[i]; }
  }

  /** The ranks at which an id stands in a list, best first. */
  ghost predicate StandsAt(rows: seq<Record>, id: string, ranks: seq<nat>) {
    && (forall i, j :: 0 <= i < j < |ranks| ==> ranks[i] < ranks[j])
    && (forall r: nat :: r in ranks <==> r < |rows| && rows[r].id == id)
  }

  /** The worths of these ranks added to start one after another. */
  function Summed(start: nat, ranks: seq<nat>, weight: nat): nat
    decreases ranks
  {
    if ranks == [] then start else Summed(Plus(start, Worth(weight, ranks[0])), ranks[1..], weight)
  }

  lemma {:induction false} SummedSnoc(start: nat, ranks: seq<nat>, weight: nat, last: nat)
    ensures Summed(start, ranks + [last], weight) == Plus(Summed(start, ranks, weight), Worth(weight, last))
    decreases ranks
  {
    if ranks == [] {
      assert [] + [last] == [last] && [last][1..] == [];
      assert Summed(Plus(start, Worth(weight, last)), [], weight) == Plus(start, Worth(weight, last));
    } else {
      assert (ranks + [last])[1..] == ranks[1..] + [last];
      SummedSnoc(Plus(start, Worth(weight, ranks[0])), ranks[1..], weight, last);
    }
  }

  /** Every row adds the worth of its rank to its id, duplicates included. */
  lemma {:induction false} TotalOfRanks(rows: seq<Record>, id: string, weight: nat, start: nat, ranks: seq<nat>)
    requires StandsAt(rows, id, ranks)
    ensures Total(rows, id, weight, start) == Summed(start, ranks, weight)
  {
    assert ranks != [] ==> ranks[0] in ranks;
    if rows != [] {
      var last := |rows| - 1;
      if rows[last].id == id {
        assert last in ranks;
        var n := |ranks| - 1;
        LastRank(ranks, last);
        assert StandsAt(rows[..last], id, ranks[..n]) by {
          forall r: nat ensures r in ranks[..n] <==> r < last && rows[..last][r].id == id { RankBelow(ranks, r, last); }
        }
        TotalOfRanks(rows[..last], id, weight, start, ranks[..n]);
        SummedSnoc(start, ranks[..n], weight, last);
        assert ranks == ranks[..n] + [last];
      } else {
        assert StandsAt(rows[..last], id, ranks);
        TotalOfRanks(rows[..last], id, weight, start, ranks);
      }
    }
  }

  lemma LastRank(ranks: seq<nat>, last: nat)
    requires (forall i, j :: 0 <= i < j < |ranks| ==> ranks[i] < ranks[j]) && last in ranks
    requires forall r :: r in ranks ==> r <= last
    ensures ranks[|ranks| - 1] == last
  {
    var i :| 0 <= i < |ranks| && ranks[i] == last;
    assert ranks[|ranks| - 1] in ranks;
  }

  lemma RankBelow(ranks: seq<nat>, r: nat, last: nat)
    requires (forall i, j :: 0 <= i < j < |ranks| ==> ranks[i] < ranks[j])
    requires ranks != [] && ranks[|ranks| - 1] == last
    ensures r in ranks[..|ranks| - 1] <==> r in ranks && r < last
  {
    if r in ranks && r < last {
      var i :| 0 <= i < |ranks| && ranks[i] == r;
      assert i < |ranks| - 1;
    }
  }

  /** The score of an id is what its ranks in both lists are worth, the semantic ones added first. */
  lemma ScoreIsOfAllRanks(semantic: seq<Record>, lexical: seq<Record>, id: string, i: seq<nat>, j: seq<nat>)
    requires StandsAt(semantic, id, i) && StandsAt(lexical, id, j)
    ensures Score(semantic, lexical, id) == Summed(Summed(0, i, WEIGHT_SEMANTIC), j, WEIGHT_LEXICAL)
  {
    TotalOfRanks(semantic, id, WEIGHT_SEMANTIC, 0, i);
    TotalOfRanks(lexical, id, WEIGHT_LEXICAL, Total(semantic, id, WEIGHT_SEMANTIC, 0), j);
  }

  /** In a fused list scores do not rise, and equal ones stand in the order of their ids. */
  lemma FusedInOrder(fused: seq<Record>, semantic: seq<Record>, lexical: seq<Record>, limit: nat, i: nat, j: nat)
    requires IsFusion(fused, semantic, lexical, limit) && i < j < |fused|
    ensures Score(semantic, lexical, fused[i].id) >= Score(semantic, lexical, fused[j].id)
    ensures Score(semantic, lexical, fused[i].id) == Score(semantic, lexical, fused[j].id) ==>
      exists k :: LessAt(fused[i].id, fused[j].id, k)
  {
    FusionOrdered(fused, semantic, lexical, limit, i, j);
    StringLessIff(fused[i].id, fused[j].id);
  }

  /** Without duplicates one worth is added, that of the id's rank. */
  lemma {:induction false} TotalOfRank(rows: seq<Record>, i: nat, weight: nat, start: nat)
    requires Distinct(rows) && i < |rows|
    ensures Total(rows, rows[i].id, weight, start) == Plus(start, Worth(weight, i))
  {
    var last := |rows| - 1;
    LastIsNew(rows);
    if i < last {
      assert rows[..last][i] == rows[i];
      TotalOfRank(rows[..last], i, weight, start);
    } else {
      TotalOfStranger(rows[..last], rows[i].id, weight, start);
    }
  }

  /** What an id's rank in a list is worth; nothing when it is absent. */
  function Part(rows: seq<Record>, id: string, weight: nat): nat {
    if RankOf(rows, id) < |rows| then Worth(weight, RankOf(rows, id)) else 0
  }

  lemma TotalIsPart(rows: seq<Record>, id: string, weight: nat, start: nat)
    requires Distinct(rows)
    ensures Total(rows, id, weight, start) == if RankOf(rows, id) < |rows| then Plus(start, Part(rows, id, weight)) else start
  {
    RankIsExact(rows, id);
    if RankOf(rows, id) < |rows| {
      TotalOfRank(rows, RankOf(rows, id), weight, start);
    } else {
      IdsOfIsExact(rows);
      TotalOfStranger(rows, id, weight, start);
    }
  }

  /** Adding nothing to a part, or a part to nothing, changes nothing. */
  lemma PartIsDouble(rows: seq<Record>, id: string, weight: nat)
    ensures Plus(0, Part(rows, id, weight)) == Part(rows, id, weight) == Plus(Part(rows, id, weight), 0)
  {
    PlusZero(weight, RRF_K + RankOf(rows, id) + 1);
    PlusZero(0, 1);
    assert Rounded(0, 1) == 0 by { RoundEvenExact(0, 1); }
  }

  /** Without duplicates a score is the sum of what the two ranks are worth. */
  lemma ScoreOfRanks(semantic: seq<Record>, lexical: seq<Record>, id: string)
    requires Distinct(semantic) && Distinct(lexical)
    ensures Score(semantic, lexical, id) == Plus(Part(semantic, id, WEIGHT_SEMANTIC), Part(lexical, id, WEIGHT_LEXICAL))
  {
    TotalIsPart(semantic, id, WEIGHT_SEMANTIC, 0);
    TotalIsPart(lexical, id, WEIGHT_LEXICAL, Total(semantic, id, WEIGHT_SEMANTIC, 0));
    PartIsDouble(semantic, id, WEIGHT_SEMANTIC);
  }

  /** A better rank is never worth less, absence being the worst. */
  lemma PartNeverRises(rows: seq<Record>, a: string, b: string, weight: nat)
    requires RankOf(rows, a) <= RankOf(rows, b)
    ensures Part(rows, a, weight) >= Part(rows, b, weight)
  {
    RankIsExact(rows, a);
    RankIsExact(rows, b);
    if RankOf(rows, b) < |rows| { WorthNeverRises(weight, RankOf(rows, a), RankOf(rows, b)); }
  }

  /** Down to NEAR it is worth more by more than two steps. */
  lemma PartsFarApart(rows: seq<Record>, a: string, b: string, weight: nat)
    requires IsWeight(weight) && |rows| <= NEAR && RankOf(rows, a) < RankOf(rows, b)
    ensures Part(rows, a, weight) > Part(rows, b, weight) + 2 * STEP
  {
    RankIsExact(rows, a);
    RankIsExact(rows, b);
    if RankOf(rows, b) < |rows| {
      WorthsFarApart(weight, RankOf(rows, a), RankOf(rows, b));
    } else {
      WorthIsFarFromNothing(weight, RankOf(rows, a));
    }
  }

  lemma PartsAreSmall(semantic: seq<Record>, lexical: seq<Record>, id: string)
    requires |semantic| <= NEAR && |lexical| <= NEAR
    ensures Part(semantic, id, WEIGHT_SEMANTIC) + Part(lexical, id, WEIGHT_LEXICAL) < UNIT / 32
  {
    var i := if RankOf(semantic, id) < |semantic| then RankOf(semantic, id) else 0;
    var j := if RankOf(lexical, id) < |lexical| then RankOf(lexical, id) else 0;
    WorthsAreSmall(i, j);
  }

  // Dominance -------------------------------------------------------------------------------------

  /** Id a is at least as well ranked in both lists and better in one, absence being the worst rank. */
  predicate Dominates(semantic: seq<Record>, lexical: seq<Record>, a: string, b: string) {
    && RankOf(semantic, a) <= RankOf(semantic, b)
    && RankOf(lexical, a) <= RankOf(lexical, b)
    && (RankOf(semantic, a) < RankOf(semantic, b) || RankOf(lexical, a) < RankOf(lexical, b))
  }

  /** However long the lists, the dominating id never has the lower score; it comes second only at equal scores. */
  lemma DominatorNeverScoresLess(semantic: seq<Record>, lexical: seq<Record>, a: string, b: string)
    requires Distinct(semantic) && Distinct(lexical) && Dominates(semantic, lexical, a, b)
    ensures Score(semantic, lexical, a) >= Score(semantic, lexical, b)
    ensures Outranks(semantic, lexical, b, a) <==>
      Score(semantic, lexical, a) == Score(semantic, lexical, b) && StringLess(b, a)
  {
    ScoreOfRanks(semantic, lexical, a);
    ScoreOfRanks(semantic, lexical, b);
    PartNeverRises(semantic, a, b, WEIGHT_SEMANTIC);
    PartNeverRises(lexical, a, b, WEIGHT_LEXICAL);
    PlusMonotone(Part(semantic, b, WEIGHT_SEMANTIC), Part(lexical, b, WEIGHT_LEXICAL),
                 Part(semantic, a, WEIGHT_SEMANTIC), Part(lexical, a, WEIGHT_LEXICAL));
  }

  /** In lists down to NEAR it has the higher one: no rounding hides a better rank. */
  lemma DominatorScoresMore(semantic: seq<Record>, lexical: seq<Record>, a: string, b: string)
    requires Distinct(semantic) && Distinct(lexical) && Dominates(semantic, lexical, a, b)
    requires |semantic| <= NEAR && |lexical| <= NEAR
    ensures Score(semantic, lexical, a) > Score(semantic, lexical, b)
  {
    ScoreOfRanks(semantic, lexical, a);
    ScoreOfRanks(semantic, lexical, b);
    PartNeverRises(semantic, a, b, WEIGHT_SEMANTIC);
    PartNeverRises(lexical, a, b, WEIGHT_LEXICAL);
    PartsAreSmall(semantic, lexical, a);
    if RankOf(semantic, a) < RankOf(semantic, b) {
      PartsFarApart(semantic, a, b, WEIGHT_SEMANTIC);
    } else {
      PartsFarApart(lexical, a, b, WEIGHT_LEXICAL);
    }
    PlusKeepsApart(Part(semantic, a, WEIGHT_SEMANTIC), Part(lexical, a, WEIGHT_LEXICAL),
                   Part(semantic, b, WEIGHT_SEMANTIC), Part(lexical, b, WEIGHT_LEXICAL));
  }

  /** A dominated id appears only behind the id that dominates it. */
  lemma DominanceIsRespected(fused: seq<Record>, semantic: seq<Record>, lexical: seq<Record>, limit: nat, a: string, k: nat)
    requires Distinct(semantic) && Distinct(lexical) && |semantic| <= NEAR && |lexical| <= NEAR
    requires IsFusion(fused, semantic, lexical, limit) && k < |fused|
    requires Dominates(semantic, lexical, a, fused[k].id)
    ensures exists j :: 0 <= j < k && fused[j].id == a
  {
    DominatorScoresMore(semantic, lexical, a, fused[k].id);
    RankIsExact(semantic, a);
    RankIsExact(lexical, a);
    RankIsExact(semantic, fused[k].id);
    RankIsExact(lexical, fused[k].id);
    IdsOfIsExact(semantic);
    IdsOfIsExact(lexical);
    NothingBetterMissing(fused, semantic, lexical, limit, k, a);
  }

  /** The rank of the row that stands there. */
  lemma RankOfRow(rows: seq<Record>, i: nat)
    requires Distinct(rows) && i < |rows|
    ensures RankOf(rows, rows[i].id) == i
  {
    RankIsExact(rows, rows[i].id);
  }

  /**
   * Where the exact sums are equal, rounding and not the id decides: an id at ranks 15 and 10 comes
   * before one at ranks 24 and 3.
   */
  lemma RoundingBreaksTie(semantic: seq<Record>, lexical: seq<Record>, a: string, b: string)
    requires Distinct(semantic) && Distinct(lexical) && |semantic| > 23 && |lexical| > 9
    requires semantic[14].id == a == lexical[9].id && semantic[23].id == b == lexical[2].id
    ensures Outranks(semantic, lexical, a, b) && !Outranks(semantic, lexical, b, a)
    ensures 1.0 / 75.0 + 0.9 / 70.0 == 1.0 / 84.0 + 0.9 / 63.0
  {
    EqualSumsComeApart();
    RankOfRow(semantic, 14);
    RankOfRow(semantic, 23);
    RankOfRow(lexical, 9);
    RankOfRow(lexical, 2);
    ScoreOfRanks(semantic, lexical, a);
    ScoreOfRanks(semantic, lexical, b);
  }

  // The shortcuts ---------------------------------------------------------------------------------

  /** The rows of one leg alone, cut at the limit, as a fused list of that leg with an empty one. */
  ghost predicate CutIsFusion(rows: seq<Record>, asSemantic: bool, limit: nat) {
    if asSemantic then IsFusion(Take(rows, limit), rows, [], limit) else IsFusion(Take(rows, limit), [], rows, limit)
  }

  lemma DistinctIsRanked(rows: seq<Record>, asSemantic: bool, i: nat, j: nat)
    requires Distinct(rows) && i < j < |rows| <= FAR
    ensures asSemantic ==> Outranks(rows, [], rows[i].id, rows[j].id)
    ensures !asSemantic ==> Outranks([], rows, rows[i].id, rows[j].id)
  {
    LegScore(rows, asSemantic, i);
    LegScore(rows, asSemantic, j);
    WorthFalls(if asSemantic then WEIGHT_SEMANTIC else WEIGHT_LEXICAL, i, j);
  }

  lemma CutIsFusionWhenRanked(rows: seq<Record>, semantic: seq<Record>, lexical: seq<Record>, limit: nat)
    requires Distinct(rows) && ((semantic == rows && lexical == []) || (semantic == [] && lexical == rows))
    requires forall i, j :: 0 <= i < j < |rows| ==> Outranks(semantic, lexical, rows[i].id, rows[j].id)
    ensures IsFusion(Take(rows, limit), semantic, lexical, limit)
  {
    var cut := Take(rows, limit);
    DistinctBySize(rows);
    assert AllIds(semantic, lexical) == IdsOf(rows);
    forall i | 0 <= i < |cut| ensures cut[i].id in IdsOf(rows) && cut[i] == Chosen(semantic, lexical, cut[i].id) {
      FirstOfRank(rows, i);
    }
    forall i, id | 0 <= i < |cut| && id in AllIds(semantic, lexical)
      ensures (exists j :: 0 <= j < |cut| && cut[j].id == id) || Outranks(semantic, lexical, cut[i].id, id)
    {
      CutLeavesOutWorse(rows, semantic, lexical, limit, i, id);
    }
  }

  lemma CutLeavesOutWorse(rows: seq<Record>, semantic: seq<Record>, lexical: seq<Record>, limit: nat, i: nat, id: string)
    requires forall i, j :: 0 <= i < j < |rows| ==> Outranks(semantic, lexical, rows[i].id, rows[j].id)
    requires i < |Take(rows, limit)| && id in IdsOf(rows)
    ensures (exists j :: 0 <= j < |Take(rows, limit)| && Take(rows, limit)[j].id == id)
         || Outranks(semantic, lexical, Take(rows, limit)[i].id, id)
  {
    IdsOfIsExact(rows);
    var j :| 0 <= j < |rows| && rows[j].id == id;
    if j < |Take(rows, limit)| { assert Take(rows, limit)[j].id == id; }
  }

  /** Every row ranks before those behind it. */
  ghost predicate RankedAsListed(rows: seq<Record>, asSemantic: bool) {
    forall i, j :: 0 <= i < j < |rows| ==>
      if asSemantic then Outranks(rows, [], rows[i].id, rows[j].id) else Outranks([], rows, rows[i].id, rows[j].id)
  }

  lemma DistinctIsRankedAsListed(rows: seq<Record>, asSemantic: bool)
    requires Distinct(rows) && |rows| <= FAR
    ensures RankedAsListed(rows, asSemantic)
  {
    forall i, j | 0 <= i < j < |rows|
      ensures if asSemantic then Outranks(rows, [], rows[i].id, rows[j].id) else Outranks([], rows, rows[i].id, rows[j].id)
    {
      DistinctIsRanked(rows, asSemantic, i, j);
    }
  }

  lemma LegScore(rows: seq<Record>, asSemantic: bool, i: nat)
    requires Distinct(rows) && i < |rows|
    ensures asSemantic ==> Score(rows, [], rows[i].id) == Worth(WEIGHT_SEMANTIC, i)
    ensures !asSemantic ==> Score([], rows, rows[i].id) == Worth(WEIGHT_LEXICAL, i)
  {
    TotalOfRank(rows, i, WEIGHT_SEMANTIC, 0);
    TotalOfRank(rows, i, WEIGHT_LEXICAL, 0);
    PlusZero(WEIGHT_SEMANTIC, RRF_K + i + 1);
    PlusZero(WEIGHT_LEXICAL, RRF_K + i + 1);
  }

  /**
   * The shortcut for one empty leg agrees with the general fusion at every limit exactly when the other
   * leg's ids differ and its rows rank as they are listed.
   */
  lemma ShortcutAgreesIffRanked(rows: seq<Record>, asSemantic: bool)
    ensures (forall limit: nat :: CutIsFusion(rows, asSemantic, limit)) <==> Distinct(rows) && RankedAsListed(rows, asSemantic)
  {
    var semantic, lexical := if asSemantic then rows else [], if asSemantic then [] else rows;
    if Distinct(rows) && RankedAsListed(rows, asSemantic) {
      forall limit: nat ensures CutIsFusion(rows, asSemantic, limit) { CutIsFusionWhenRanked(rows, semantic, lexical, limit); }
    } else if Distinct(rows) {
      assert Take(rows, |rows|) == rows;
      assert !CutIsFusion(rows, asSemantic, |rows|);
    } else {
      DistinctBySize(rows);
      assert AllIds(rows, []) == IdsOf(rows) == AllIds([], rows);
      assert !CutIsFusion(rows, asSemantic, |rows|);
    }
  }

  /** Down to FAR they do, so that it agrees exactly when the other leg's ids differ. */
  lemma ShortcutAgreesIffDistinct(rows: seq<Record>, asSemantic: bool)
    requires |rows| <= FAR
    ensures (forall limit: nat :: CutIsFusion(rows, asSemantic, limit)) <==> Distinct(rows)
  {
    ShortcutAgreesIffRanked(rows, asSemantic);
    if Distinct(rows) { DistinctIsRankedAsListed(rows, asSemantic); }
  }
}
