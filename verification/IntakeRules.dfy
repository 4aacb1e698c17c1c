/** What intake does to the table, said with the fields of the payloads: which
    records count as duplicates, which contradict each other, and what is stored. */
module IntakeRules {
  import opened Wrappers
  import opened TotalOrders
  import opened MemoryModels
  import opened MemoryStore
  import opened MemoryCandidates

  // ---------- equal after normalisation ----------

  ghost predicate SameText(env: Env, a: string, b: string) {
    env.norm(a) == env.norm(b)
  }

  /** Two optional texts; an absent one counts as empty. */
  ghost predicate SameOptional(env: Env, a: Option<string>, b: Option<string>) {
    (if a.Some? then env.norm(a.value) else "") == (if b.Some? then env.norm(b.value) else "")
  }

  ghost function Normalised(env: Env, xs: seq<string>): seq<string> {
    seq(|xs|, k requires 0 <= k < |xs| => env.norm(xs[k]))
  }

  /** The same texts as often, in any order. */
  ghost predicate SameTexts(env: Env, xs: seq<string>, ys: seq<string>) {
    multiset(Normalised(env, xs)) == multiset(Normalised(env, ys))
  }

  lemma SameTextsExact(env: Env, xs: seq<string>, ys: seq<string>)
    ensures NormSorted(env, xs) == NormSorted(env, ys) <==> SameTexts(env, xs, ys)
  {
    var a, b := NormEach(env, xs), NormEach(env, ys);
    assert a == Normalised(env, xs) && b == Normalised(env, ys);
    SortElements(StrLe, a);
    SortElements(StrLe, b);
    if multiset(a) == multiset(b) {
      StrLeIsTotalOrder();
      SortPermutation(StrLe, a, b);
    }
  }

  // ---------- duplicates ----------

  ghost function SessionOf(r: Record): string {
    if "session_id" in r.evidence.fields then r.evidence.fields["session_id"] else ""
  }

  /** The two records of one owner say the same about the same thing. */
  ghost predicate Duplicates(env: Env, a: Record, b: Record) {
    && a.ownerId == b.ownerId
    && match (a.payload, b.payload)
       case (AlertPattern(alert, service, signals, _, _), AlertPattern(alert', service', signals', _, _)) =>
         SameText(env, alert, alert') && SameOptional(env, service, service') && SameTexts(env, signals, signals')
       case (PlanTemplate(alert, steps, _, _), PlanTemplate(alert', steps', _, _)) =>
         SameText(env, alert, alert') && env.digest(steps) == env.digest(steps')
       case (Preference(scope, _, uses), Preference(scope', _, uses')) =>
         SameText(env, scope, scope') && SameTexts(env, uses, uses')
       case (RuntimeContext(key, _, _), RuntimeContext(key', _, _)) => SameText(env, key, key')
       case (CandidateSummary(_, summary), CandidateSummary(_, summary')) =>
         SameText(env, SessionOf(a), SessionOf(b)) && env.digest([summary]) == env.digest([summary'])
       case (L2(scenario, atoms), L2(scenario', atoms')) =>
         SameText(env, scenario, scenario') && SameTexts(env, atoms, atoms')
       case _ => false
  }

  lemma DuplicatesExact(env: Env, a: Record, b: Record)
    ensures DedupKey(env, a).Some? && DedupKey(env, a) == DedupKey(env, b) <==> Duplicates(env, a, b)
  {
    match (a.payload, b.payload) {
      case (AlertPattern(_, _, xs, _, _), AlertPattern(_, _, ys, _, _)) => SameTextsExact(env, xs, ys);
      case (Preference(_, _, xs), Preference(_, _, ys)) => SameTextsExact(env, xs, ys);
      case (L2(_, xs), L2(_, ys)) => SameTextsExact(env, xs, ys);
      case _ =>
    }
  }

  // ---------- conflicts ----------

  /** The new record contradicts the old one: another root cause or fix for one alert
      pattern, other stop conditions or tools for another plan of one alert, another
      preference of one scope, another value of one context that has not expired. */
  ghost predicate Contradiction(env: Env, old_: Record, new_: Record, now: int) {
    && old_.ownerId == new_.ownerId
    && match (old_.payload, new_.payload)
       case (AlertPattern(_, _, _, cause, fix), AlertPattern(_, _, _, cause', fix')) =>
         Duplicates(env, old_, new_) && (!SameText(env, cause, cause') || !SameOptional(env, fix, fix'))
       case (PlanTemplate(alert, steps, tools, stops), PlanTemplate(alert', steps', tools', stops')) =>
         && SameText(env, alert, alert') && env.digest(steps) != env.digest(steps')
         && (env.digest(stops) != env.digest(stops') || env.digest(tools) != env.digest(tools'))
       case (Preference(_, preference, _), Preference(_, preference', _)) =>
         Duplicates(env, old_, new_) && !SameText(env, preference, preference')
       case (RuntimeContext(_, value, expiry), RuntimeContext(_, value', _)) =>
         Duplicates(env, old_, new_) && (expiry.Some? ==> expiry.value > now) && !SameText(env, value, value')
       case _ => false
  }

  lemma ContradictionExact(env: Env, a: Record, b: Record, now: int)
    ensures IsConflict(env, a, b, now) <==> Contradiction(env, a, b, now)
  {
    DuplicatesExact(env, a, b);
  }

  // ---------- the table after intake ----------

  /** The old record is live and contradicts the new one. */
  ghost predicate Against(env: Env, t: Table, record: Record, now: int, id: string) {
    id in t && t[id].status != Deprecated && Contradiction(env, t[id], record, now)
  }

  /** The old record is live and duplicates the new one. */
  ghost predicate Same(env: Env, t: Table, record: Record, id: string) {
    id in t && t[id].status != Deprecated && Duplicates(env, t[id], record)
  }

  /** Older rows first, then smaller ids. */
  ghost predicate RowBefore(a: Record, b: Record) {
    a.updatedAt < b.updatedAt || (a.updatedAt == b.updatedAt && StrLe(a.memoryId, b.memoryId))
  }

  /** The ids of exactly the contradicted records, each once, in row order. */
  ghost predicate NamesAgainst(env: Env, t: Table, record: Record, now: int, ids: seq<string>) {
    && (forall id :: id in ids <==> Against(env, t, record, now, id))
    && Distinct(ids)
    && forall i, j :: 0 <= i < j < |ids| ==> ids[i] in t && ids[j] in t && RowBefore(t[ids[i]], t[ids[j]])
  }

  function Selected(p: Record -> bool, rows: seq<Record>): seq<Record> {
    if rows == [] then [] else (if p(rows[0]) then [rows[0]] else []) + Selected(p, rows[1..])
  }

  lemma {:induction false} SelectedExact(p: Record -> bool, rows: seq<Record>)
    ensures forall r :: r in Selected(p, rows) <==> r in rows && p(r)
  {
    if rows != [] {
      SelectedExact(p, rows[1..]);
      assert forall r :: r in rows <==> r == rows[0] || r in rows[1..];
    }
  }

  lemma {:induction false} SelectedSorted(p: Record -> bool, rows: seq<Record>)
    requires RowsSorted(rows)
    ensures RowsSorted(Selected(p, rows))
  {
    if rows != [] {
      var later := Selected(p, rows[1..]);
      SelectedSorted(p, rows[1..]);
      SelectedExact(p, rows[1..]);
      forall k | 0 <= k < |later|
        ensures rows[0].memoryId != later[k].memoryId && RowLe(KeyOf(rows[0]), KeyOf(later[k]))
      {
        assert later[k] in rows[1..];
        var j :| 0 <= j < |rows[1..]| && rows[1..][j] == later[k];
        assert rows[j + 1] == later[k];
      }
    }
  }

  function Ids(rows: seq<Record>): seq<string> {
    seq(|rows|, k requires 0 <= k < |rows| => rows[k].memoryId)
  }

  lemma {:induction false} ConflictIdsSelected(env: Env, rows: seq<Record>, candidate: Record, now: int,
                                               p: Record -> bool)
    requires forall r :: p(r) == IsConflict(env, r, candidate, now)
    ensures ConflictIds(env, rows, candidate, now) == Ids(Selected(p, rows))
  {
    if rows != [] {
      ConflictIdsSelected(env, rows[1..], candidate, now, p);
    }
  }

  /** The rows list exactly the table's records with the property, in row order. */
  lemma NamedInOrder(t: Table, p: Record -> bool, rows: seq<Record>)
    requires Lists(t, p, rows)
    ensures forall id :: id in Ids(rows) ==> id in t && p(t[id])
    ensures Keyed(t) ==> forall id :: id in t && p(t[id]) ==> id in Ids(rows)
    ensures Distinct(Ids(rows))
    ensures forall i, j :: 0 <= i < j < |rows| ==>
      Ids(rows)[i] in t && Ids(rows)[j] in t && RowBefore(t[Ids(rows)[i]], t[Ids(rows)[j]])
  {
    forall id | id in t && p(t[id]) && Keyed(t) ensures id in Ids(rows) {
      var k :| 0 <= k < |rows| && rows[k] == t[id];
      assert Ids(rows)[k] == id;
    }
    forall i, j | 0 <= i < j < |rows|
      ensures Ids(rows)[i] in t && Ids(rows)[j] in t && RowBefore(t[Ids(rows)[i]], t[Ids(rows)[j]])
    {
      assert RowLe(KeyOf(rows[i]), KeyOf(rows[j]));
    }
  }

  lemma SelectedLists(t: Table, p: Record -> bool, rows: seq<Record>, q: Record -> bool, both: Record -> bool)
    requires Keyed(t) && Lists(t, p, rows)
    requires forall r :: both(r) == (p(r) && q(r))
    ensures Lists(t, both, Selected(q, rows))
  {
    var s := Selected(q, rows);
    SelectedExact(q, rows);
    SelectedSorted(q, rows);
    forall k | 0 <= k < |s| ensures s[k].memoryId in t && t[s[k].memoryId] == s[k] && both(s[k]) {
      assert s[k] in rows;
      var j :| 0 <= j < |rows| && rows[j] == s[k];
    }
    forall id | id in t && both(t[id]) ensures t[id] in s {
      assert t[id] in rows;
    }
  }

  lemma ConflictsNamed(env: Env, t: Table, record: Record, rows: seq<Record>, now: int)
    requires Keyed(t) && Lists(t, Rivals(record), rows)
    ensures NamesAgainst(env, t, record, now, ConflictIds(env, rows, record.(status := Candidate), now))
  {
    var candidate := record.(status := Candidate);
    var p := (r: Record) => IsConflict(env, r, candidate, now);
    var both := (r: Record) => Rivals(record)(r) && p(r);
    ConflictIdsSelected(env, rows, candidate, now, p);
    SelectedLists(t, Rivals(record), rows, p, both);
    NamedInOrder(t, both, Selected(p, rows));
    forall id ensures (id in t && both(t[id])) <==> Against(env, t, record, now, id) {
      if id in t {
        ContradictionAmongRivals(env, t[id], record, now);
      }
    }
  }

  lemma ContradictionAmongRivals(env: Env, r: Record, record: Record, now: int)
    ensures Rivals(record)(r) && IsConflict(env, r, record.(status := Candidate), now) <==>
      r.status != Deprecated && Contradiction(env, r, record, now)
  {
    ContradictionExact(env, r, record.(status := Candidate), now);
  }

  lemma {:induction false} FirstDuplicateFirst(env: Env, rows: seq<Record>, candidate: Record)
    requires RowsSorted(rows) && FirstDuplicate(env, rows, candidate).Some?
    ensures var first := FirstDuplicate(env, rows, candidate).value;
      forall r :: r in rows && DedupKey(env, r) == DedupKey(env, candidate) ==> r == first || RowBefore(first, r)
  {
    if DedupKey(env, rows[0]) == DedupKey(env, candidate) {
      forall r | r in rows ensures r == rows[0] || RowBefore(rows[0], r) {
        var k :| 0 <= k < |rows| && rows[k] == r;
        assert k > 0 ==> RowLe(KeyOf(rows[0]), KeyOf(rows[k]));
      }
    } else {
      FirstDuplicateFirst(env, rows[1..], candidate);
      assert forall r :: r in rows <==> r == rows[0] || r in rows[1..];
    }
  }

  /** The record is stored as a conflict that names what it contradicts. */
  ghost predicate StoredAsConflict(env: Env, t: Table, record: Record, now: int, out: Stored) {
    exists ids ::
      && NamesAgainst(env, t, record, now, ids)
      && out.record == record.(status := Conflict, evidence := record.evidence.(conflictsWith := ids), updatedAt := now)
      && out == Stored(t[record.memoryId := out.record], Conflicted, out.record)
  }

  /** Nothing is written; the first duplicate in row order is returned. */
  ghost predicate ReportedAsDuplicate(env: Env, t: Table, record: Record, out: Stored) {
    && out == Stored(t, Duplicate, out.record)
    && Same(env, t, record, out.record.memoryId) && t[out.record.memoryId] == out.record
    && forall id :: Same(env, t, record, id) ==> t[id] == out.record || RowBefore(out.record, t[id])
  }

  ghost predicate StoredAsCandidate(t: Table, record: Record, now: int, out: Stored) {
    && out.record == record.(status := Candidate, updatedAt := now)
    && out == Stored(t[record.memoryId := out.record], Created, out.record)
  }

  ghost predicate OtherAtom(t: Table, record: Record, id: string) {
    id in t && t[id].payload.L1? && t[id].ownerId == record.ownerId && t[id].status != Deprecated
  }

  /** What intake answers and leaves in the table. */
  ghost predicate IntakeOutcome(env: Env, t: Table, record: Record, now: int, out: Result<Stored>) {
    if record.payload.L1? && exists id :: OtherAtom(t, record, id) then out.Raised?
    else
      && out.Ok?
      && if exists id :: Against(env, t, record, now, id) then StoredAsConflict(env, t, record, now, out.value)
         else if exists id :: Same(env, t, record, id) then ReportedAsDuplicate(env, t, record, out.value)
         else StoredAsCandidate(t, record, now, out.value)
  }

  /** Intake raises on an atom beside another live atom of the owner; it stores a
      conflict exactly when a live record is contradicted, reports a duplicate
      exactly when none is and a live record says the same, and otherwise stores a
      candidate. */
  lemma IntakeExactly(env: Env, t: Table, record: Record, now: int)
    requires Keyed(t)
    ensures IntakeOutcome(env, t, record, now, StoreCandidate(env, t, record, now))
  {
    var rows := Listing(t, Rivals(record));
    AtomsAmongRivals(t, record, rows);
    if record.payload.L1? && rows != [] {
    } else {
      ConflictsNamed(env, t, record, rows, now);
      DuplicatesReported(env, t, record, rows);
      StoredAmong(env, t, rows, record, now);
    }
  }

  lemma StoredAmong(env: Env, t: Table, rows: seq<Record>, record: Record, now: int)
    requires record.payload.L1? ==> rows == [] && forall id :: !OtherAtom(t, record, id)
    requires NamesAgainst(env, t, record, now, ConflictIds(env, rows, record.(status := Candidate), now))
    requires var first := FirstDuplicate(env, rows, record.(status := Candidate));
      && (first.Some? <==> exists id :: Same(env, t, record, id))
      && (first.Some? ==> ReportedAsDuplicate(env, t, record, Stored(t, Duplicate, first.value)))
    ensures IntakeOutcome(env, t, record, now, StoreAmong(env, t, rows, record, now))
  {
    var ids := ConflictIds(env, rows, record.(status := Candidate), now);
    if ids != [] {
      assert Against(env, t, record, now, ids[0]) by { assert ids[0] in ids; }
      ConflictStored(env, t, rows, record, now);
      ConflictOutcome(env, t, record, now, ids[0], StoreAmong(env, t, rows, record, now).value);
    } else {
      NothingAgainst(env, t, record, now);
      NoConflictStored(env, t, rows, record, now);
      OtherOutcome(env, t, record, now, StoreAmong(env, t, rows, record, now).value);
    }
  }

  lemma ConflictOutcome(env: Env, t: Table, record: Record, now: int, id: string, out: Stored)
    requires record.payload.L1? ==> forall x :: !OtherAtom(t, record, x)
    requires Against(env, t, record, now, id) && StoredAsConflict(env, t, record, now, out)
    ensures IntakeOutcome(env, t, record, now, Ok(out))
  {
  }

  lemma OtherOutcome(env: Env, t: Table, record: Record, now: int, out: Stored)
    requires record.payload.L1? ==> forall x :: !OtherAtom(t, record, x)
    requires forall id :: !Against(env, t, record, now, id)
    requires if exists id :: Same(env, t, record, id) then ReportedAsDuplicate(env, t, record, out)
             else StoredAsCandidate(t, record, now, out)
    ensures IntakeOutcome(env, t, record, now, Ok(out))
  {
  }

  lemma NoConflictStored(env: Env, t: Table, rows: seq<Record>, record: Record, now: int)
    requires record.payload.L1? ==> rows == []
    requires ConflictIds(env, rows, record.(status := Candidate), now) == []
    ensures var first := FirstDuplicate(env, rows, record.(status := Candidate));
      var stored := record.(status := Candidate, updatedAt := now);
      StoreAmong(env, t, rows, record, now) ==
      Ok(if first.Some? then Stored(t, Duplicate, first.value)
         else Stored(t[record.memoryId := stored], Created, stored))
  {
  }

  lemma NothingAgainst(env: Env, t: Table, record: Record, now: int)
    requires NamesAgainst(env, t, record, now, [])
    ensures forall id :: !Against(env, t, record, now, id)
  {
    forall id ensures !Against(env, t, record, now, id) {
      assert id !in [];
    }
  }

  lemma ConflictStored(env: Env, t: Table, rows: seq<Record>, record: Record, now: int)
    requires record.payload.L1? ==> rows == []
    requires var ids := ConflictIds(env, rows, record.(status := Candidate), now);
      ids != [] && NamesAgainst(env, t, record, now, ids)
    ensures var out := StoreAmong(env, t, rows, record, now);
      out.Ok? && StoredAsConflict(env, t, record, now, out.value)
  {
    var ids := ConflictIds(env, rows, record.(status := Candidate), now);
    var marked := record.(status := Conflict, evidence := record.evidence.(conflictsWith := ids), updatedAt := now);
    var out := StoreAmong(env, t, rows, record, now);
    assert out == Ok(Stored(t[record.memoryId := marked], Conflicted, marked));
  }

  lemma AtomsAmongRivals(t: Table, record: Record, rows: seq<Record>)
    requires Keyed(t) && Lists(t, Rivals(record), rows)
    ensures record.payload.L1? ==> (rows != [] <==> exists id :: OtherAtom(t, record, id))
  {
    assert forall r :: r in rows <==> r.memoryId in t && t[r.memoryId] == r && Rivals(record)(r);
    if id :| OtherAtom(t, record, id) && record.payload.L1? {
      assert t[id] in rows;
    }
    if rows != [] && record.payload.L1? {
      assert rows[0] in rows;
      assert OtherAtom(t, record, rows[0].memoryId);
    }
  }

  lemma DuplicateAmongRivals(env: Env, r: Record, record: Record)
    requires DedupKey(env, record).Some?
    ensures Rivals(record)(r) && DedupKey(env, r) == DedupKey(env, record.(status := Candidate)) <==>
      r.status != Deprecated && Duplicates(env, r, record)
  {
    DuplicatesExact(env, r, record);
  }

  /** The first row with the candidate's key, told by the ids that have it. */
  lemma FirstAmong(env: Env, t: Table, rows: seq<Record>, candidate: Record, same: string -> bool)
    requires Keyed(t) && RowsSorted(rows)
    requires forall r :: r in rows ==> r.memoryId in t && t[r.memoryId] == r
    requires forall id :: same(id) <==> id in t && t[id] in rows && DedupKey(env, t[id]) == DedupKey(env, candidate)
    ensures var first := FirstDuplicate(env, rows, candidate);
      && (first.Some? <==> exists id :: same(id))
      && (first.Some? ==>
            && same(first.value.memoryId) && t[first.value.memoryId] == first.value
            && forall id :: same(id) ==> id in t && (t[id] == first.value || RowBefore(first.value, t[id])))
  {
    NoFirstDuplicate(env, rows, candidate);
    if FirstDuplicate(env, rows, candidate).Some? {
      FirstDuplicateFirst(env, rows, candidate);
      assert same(FirstDuplicate(env, rows, candidate).value.memoryId);
    }
  }

  lemma SameAmongRivals(env: Env, t: Table, record: Record, rows: seq<Record>, id: string)
    requires Keyed(t) && Lists(t, Rivals(record), rows) && !record.payload.L1?
    ensures Same(env, t, record, id) <==>
      id in t && t[id] in rows && DedupKey(env, t[id]) == DedupKey(env, record.(status := Candidate))
  {
    if id in t {
      DuplicateAmongRivals(env, t[id], record);
    }
  }

  lemma DuplicatesReported(env: Env, t: Table, record: Record, rows: seq<Record>)
    requires Keyed(t) && Lists(t, Rivals(record), rows) && (record.payload.L1? ==> rows == [])
    ensures var first := FirstDuplicate(env, rows, record.(status := Candidate));
      && (first.Some? <==> exists id :: Same(env, t, record, id))
      && (first.Some? ==> ReportedAsDuplicate(env, t, record, Stored(t, Duplicate, first.value)))
  {
    if !record.payload.L1? {
      var same := (id: string) => Same(env, t, record, id);
      forall id
        ensures same(id) <==>
          id in t && t[id] in rows && DedupKey(env, t[id]) == DedupKey(env, record.(status := Candidate))
      {
        SameAmongRivals(env, t, record, rows, id);
      }
      FirstAmong(env, t, rows, record.(status := Candidate), same);
      forall id ensures Same(env, t, record, id) == same(id) {
      }
    }
  }

  // ---------- the chat candidate ----------

  /** A chat candidate is named after session and summary, belongs to the owner,
      carries the summary as payload and content, and says where it comes from. */
  lemma ChatCandidateFields(env: Env, sessionId: string, ownerId: string, summary: string)
    ensures var r := RagCandidate(env, sessionId, ownerId, summary);
      && r.memoryId == "mem_candidate_rag_" + env.digest([sessionId, summary]) && r.ownerId == ownerId
      && r.namespace == "memory://candidate/session" && r.content == summary && r.status == Candidate
      && r.payload.CandidateSummary? && r.payload.candidateKind == "rag_chat_summary" && r.payload.summary == summary
      && r.source == "session-candidate, NOT reviewed active memory" && r.accessCount == 0 && SessionOf(r) == sessionId
      && r.evidence.fields.Keys == {"evidence_type", "session_id", "source_type"}
      && r.evidence.fields["evidence_type"] == "session_candidate" && r.evidence.fields["source_type"] == "rag_chat"
  {
  }
}
