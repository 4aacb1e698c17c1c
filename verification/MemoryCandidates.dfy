/** Candidate intake: duplicate and conflict keys, and the store step that never
    promotes. */
module MemoryCandidates {
  import opened Wrappers
  import opened TotalOrders
  import opened MemoryModels
  import opened MemoryStore

  const SESSION_CANDIDATE_SOURCE: string := "session-candidate, NOT reviewed active memory"

  datatype Key =
    | AlertKey(owner: string, alert: string, service: string, signals: seq<string>)
    | PlanKey(owner: string, alert: string, steps: string)
    | PlanConflictKey(owner: string, alert: string)
    | PreferenceKey(owner: string, scope: string, appliesTo: seq<string>)
    | RuntimeKey(owner: string, key: string)
    | SummaryKey(owner: string, session: string, summary: string)
    | ScenarioKey(owner: string, scenario: string, atoms: seq<string>)

  function NormOpt(env: Env, s: Option<string>): string {
    match s
    case None => ""
    case Some(x) => env.norm(x)
  }

  function NormEach(env: Env, xs: seq<string>): seq<string> {
    seq(|xs|, k requires 0 <= k < |xs| => env.norm(xs[k]))
  }

  /** `tuple(sorted(_norm(x) for x in xs))`. */
  function NormSorted(env: Env, xs: seq<string>): seq<string> {
    Sort(StrLe, NormEach(env, xs))
  }

  /** The exact-duplicate key; an L1 atom has none and the code raises. */
  function DedupKey(env: Env, r: Record): Option<Key> {
    match r.payload
    case AlertPattern(alert, service, signals, _, _) =>
      Some(AlertKey(r.ownerId, env.norm(alert), NormOpt(env, service), NormSorted(env, signals)))
    case PlanTemplate(alert, steps, _, _) =>
      Some(PlanKey(r.ownerId, env.norm(alert), env.digest(steps)))
    case Preference(scope, _, appliesTo) =>
      Some(PreferenceKey(r.ownerId, env.norm(scope), NormSorted(env, appliesTo)))
    case RuntimeContext(key, _, _) =>
      Some(RuntimeKey(r.ownerId, env.norm(key)))
    case CandidateSummary(_, summary) =>
      var session := if "session_id" in r.evidence.fields then r.evidence.fields["session_id"] else "";
      Some(SummaryKey(r.ownerId, env.norm(session), env.digest([summary])))
    case L1(_) => None
    case L2(scenario, atoms) =>
      Some(ScenarioKey(r.ownerId, env.norm(scenario), NormSorted(env, atoms)))
  }

  /** The broader key within which records can conflict. */
  function ConflictKey(env: Env, r: Record): Option<Key> {
    if r.payload.PlanTemplate? then Some(PlanConflictKey(r.ownerId, env.norm(r.payload.alertType)))
    else DedupKey(env, r)
  }

  /** Equal duplicate keys imply equal conflict keys, one owner and one type. */
  lemma DuplicatesShareConflictKey(env: Env, a: Record, b: Record)
    requires DedupKey(env, a).Some? && DedupKey(env, a) == DedupKey(env, b)
    ensures ConflictKey(env, a) == ConflictKey(env, b)
    ensures a.ownerId == b.ownerId && TypeOf(a) == TypeOf(b)
  {
    if a.payload.PlanTemplate? {
      assert DedupKey(env, b).value.PlanKey?;
      assert b.payload.PlanTemplate?;
    }
  }

  /** Do the payloads contradict each other, given equal conflict keys? */
  function Contradicts(env: Env, existing: Record, candidate: Record, now: int): bool {
    match (existing.payload, candidate.payload)
    case (AlertPattern(_, _, _, cause, fix), AlertPattern(_, _, _, cause', fix')) =>
      env.norm(cause) != env.norm(cause') || NormOpt(env, fix) != NormOpt(env, fix')
    case (PlanTemplate(_, _, hints, stops), PlanTemplate(_, _, hints', stops')) =>
      && DedupKey(env, existing) != DedupKey(env, candidate)
      && (env.digest(stops) != env.digest(stops') || env.digest(hints) != env.digest(hints'))
    case (Preference(_, preference, _), Preference(_, preference', _)) =>
      env.norm(preference) != env.norm(preference')
    case (RuntimeContext(_, value, expiresAt), RuntimeContext(_, value', _)) =>
      !(expiresAt.Some? && expiresAt.value <= now) && env.norm(value) != env.norm(value')
    case _ => false
  }

  predicate IsConflict(env: Env, existing: Record, candidate: Record, now: int) {
    && TypeOf(existing) == TypeOf(candidate)
    && ConflictKey(env, existing) == ConflictKey(env, candidate)
    && Contradicts(env, existing, candidate, now)
  }

  // ---------- the store step ----------

  datatype Action = Created | Duplicate | Conflicted

  datatype Stored = Stored(table: Table, action: Action, record: Record)

  /** The owner's records of the candidate's type that are not deprecated. */
  function Rivals(candidate: Record): Record -> bool {
    (r: Record) => r.ownerId == candidate.ownerId && TypeOf(r) == TypeOf(candidate) && r.status != Deprecated
  }

  function ConflictIds(env: Env, rows: seq<Record>, candidate: Record, now: int): seq<string> {
    if rows == [] then []
    else
      var first := if IsConflict(env, rows[0], candidate, now) then [rows[0].memoryId] else [];
      first + ConflictIds(env, rows[1..], candidate, now)
  }

  function FirstDuplicate(env: Env, rows: seq<Record>, candidate: Record): Option<Record> {
    if rows == [] then None
    else if DedupKey(env, rows[0]) == DedupKey(env, candidate) then Some(rows[0])
    else FirstDuplicate(env, rows[1..], candidate)
  }

  /** What `_store_candidate_with_action` does with the rival rows it lists. */
  function StoreAmong(env: Env, t: Table, rows: seq<Record>, record: Record, now: int): Result<Stored> {
    var candidate := record.(status := Candidate);
    if candidate.payload.L1? && rows != [] then
      Raised("unsupported payload type for conflict")
    else
      var conflicts := ConflictIds(env, rows, candidate, now);
      if conflicts != [] then
        var marked := candidate.(status := Conflict, evidence := candidate.evidence.(conflictsWith := conflicts));
        Ok(Stored(Upserted(t, marked, now), Conflicted, marked.(updatedAt := now)))
      else
        match FirstDuplicate(env, rows, candidate)
        case Some(existing) => Ok(Stored(t, Duplicate, existing))
        case None => Ok(Stored(Upserted(t, candidate, now), Created, candidate.(updatedAt := now)))
  }

  ghost function StoreCandidate(env: Env, t: Table, record: Record, now: int): Result<Stored>
    requires Keyed(t)
  {
    StoreAmong(env, t, Listing(t, Rivals(record)), record, now)
  }

  class MemoryCandidateService {
    const store: Store
    const env: Env

    constructor (store: Store, env: Env)
      ensures this.store == store && this.env == env
    {
      this.store, this.env := store, env;
    }

    method StoreCandidateWithAction(record: Record, now: int) returns (r: Result<(Action, Record)>)
      requires Keyed(store.records)
      modifies store
      ensures var next := StoreCandidate(env, old(store.records), record, now);
        if next.Ok? then
          r == Ok((next.value.action, next.value.record)) && store.records == next.value.table
        else
          r.Raised? && store.records == old(store.records)
    {
      var listed := store.ListMemories(Filter(record.ownerId, None, Some(TypeOf(record)), None));
      var existing := NotDeprecated(store.records, listed, record);
      r := StoreAgainst(existing, record, now);
    }

    /** Conflict first, then duplicate, then creation. */
    method StoreAgainst(existing: seq<Record>, record: Record, now: int) returns (r: Result<(Action, Record)>)
      modifies store
      ensures var next := StoreAmong(env, old(store.records), existing, record, now);
        if next.Ok? then
          r == Ok((next.value.action, next.value.record)) && store.records == next.value.table
        else
          r.Raised? && store.records == old(store.records)
    {
      var candidate := record.(status := Candidate);
      if candidate.payload.L1? && existing != [] {
        return Raised("unsupported payload type for conflict");
      }
      var conflicts := ConflictIds(env, existing, candidate, now);
      if conflicts != [] {
        candidate := candidate.(status := Conflict, evidence := candidate.evidence.(conflictsWith := conflicts));
        var stored := store.Upsert(candidate, now);
        return Ok((Conflicted, stored));
      }
      for i := 0 to |existing|
        invariant FirstDuplicate(env, existing, candidate) == FirstDuplicate(env, existing[i..], candidate)
      {
        assert existing[i..][0] == existing[i] && existing[i..][1..] == existing[i + 1..];
        if DedupKey(env, existing[i]) == DedupKey(env, candidate) {
          return Ok((Duplicate, existing[i]));
        }
      }
      assert existing[|existing|..] == [];
      var stored := store.Upsert(candidate, now);
      return Ok((Created, stored));
    }
  }

  /** Dropping deprecated rows from the owner's rows of one type. */
  method NotDeprecated(ghost t: Table, rows: seq<Record>, record: Record) returns (kept: seq<Record>)
    requires Keyed(t)
    requires Lists(t, Matches(Filter(record.ownerId, None, Some(TypeOf(record)), None)), rows)
    ensures kept == Listing(t, Rivals(record))
  {
    kept := [];
    for i := 0 to |rows|
      invariant RowsSorted(kept)
      invariant forall r :: r in kept <==> r in rows[..i] && r.status != Deprecated
    {
      assert rows[..i + 1] == rows[..i] + [rows[i]];
      if rows[i].status != Deprecated {
        AppendSorted(rows, i, kept);
        kept := kept + [rows[i]];
      }
    }
    assert rows[..|rows|] == rows;
    KeptLists(t, rows, record, kept);
    ListsUnique(t, Rivals(record), kept, Listing(t, Rivals(record)));
  }

  lemma AppendSorted(rows: seq<Record>, i: nat, kept: seq<Record>)
    requires RowsSorted(rows) && RowsSorted(kept) && i < |rows|
    requires forall r :: r in kept ==> r in rows[..i]
    ensures RowsSorted(kept + [rows[i]])
  {
    forall k | 0 <= k < |kept| ensures kept[k].memoryId != rows[i].memoryId && RowLe(KeyOf(kept[k]), KeyOf(rows[i])) {
      assert kept[k] in rows[..i];
      var j :| 0 <= j < i && rows[j] == kept[k];
    }
  }

  lemma KeptLists(t: Table, rows: seq<Record>, record: Record, kept: seq<Record>)
    requires Keyed(t)
    requires Lists(t, Matches(Filter(record.ownerId, None, Some(TypeOf(record)), None)), rows)
    requires RowsSorted(kept) && forall r :: r in kept <==> r in rows && r.status != Deprecated
    ensures Lists(t, Rivals(record), kept)
  {
    forall k | 0 <= k < |kept|
      ensures kept[k].memoryId in t && t[kept[k].memoryId] == kept[k] && Rivals(record)(kept[k])
    {
      assert kept[k] in rows;
      var j :| 0 <= j < |rows| && rows[j] == kept[k];
    }
    forall id | id in t && Rivals(record)(t[id]) ensures t[id] in kept {
      assert t[id] in rows;
    }
  }

  // ---------- builders ----------

  /** The record built from a chat session; `summary` is its truncated first
      question and last answer. */
  function RagCandidate(env: Env, sessionId: string, ownerId: string, summary: string): Record {
    SessionRecord(
      "mem_candidate_rag_" + env.digest([sessionId, summary]), sessionId, ownerId, "memory://candidate/session",
      CandidateSummary("rag_chat_summary", summary), summary, "rag_chat")
  }

  function SessionRecord(id: string, sessionId: string, ownerId: string, namespace: string, payload: Payload,
                         content: string, kind: string): Record {
    Record(id, ownerId, namespace, payload, content, SESSION_CANDIDATE_SOURCE,
           Evidence(map["evidence_type" := "session_candidate", "session_id" := sessionId, "source_type" := kind], [], []),
           Candidate, None, None, 0, None, 0)
  }

  // ---------- duplicates stay out ----------

  /** Neither retired nor set aside. */
  predicate Live(r: Record) {
    r.status != Deprecated && r.status != Conflict
  }

  /** Live records of one owner and type have distinct duplicate keys. */
  ghost predicate NoLiveDuplicates(env: Env, t: Table) {
    forall a, b :: a in t && b in t && a != b && Live(t[a]) && Live(t[b]) && DedupKey(env, t[a]).Some? ==>
      DedupKey(env, t[a]) != DedupKey(env, t[b])
  }

  lemma {:induction false} NoFirstDuplicate(env: Env, rows: seq<Record>, candidate: Record)
    ensures FirstDuplicate(env, rows, candidate) == None <==>
      forall r :: r in rows ==> DedupKey(env, r) != DedupKey(env, candidate)
    ensures FirstDuplicate(env, rows, candidate).Some? ==>
      var r := FirstDuplicate(env, rows, candidate).value;
      r in rows && DedupKey(env, r) == DedupKey(env, candidate)
  {
    if rows != [] {
      NoFirstDuplicate(env, rows[1..], candidate);
      assert forall r :: r in rows <==> r == rows[0] || r in rows[1..];
    }
  }

  /** Writing one record keeps live keys distinct if no live record of another id
      has its key. */
  lemma WriteKeepsDistinct(env: Env, t: Table, r: Record, now: int)
    requires NoLiveDuplicates(env, t)
    requires Live(r) && DedupKey(env, r).Some? ==>
      forall id :: id in t && id != r.memoryId && Live(t[id]) ==> DedupKey(env, t[id]) != DedupKey(env, r)
    ensures NoLiveDuplicates(env, Upserted(t, r, now))
  {
    var next := Upserted(t, r, now);
    assert DedupKey(env, next[r.memoryId]) == DedupKey(env, r) by { assert next[r.memoryId].payload == r.payload; }
    forall a, b | a in next && b in next && a != b && Live(next[a]) && Live(next[b]) && DedupKey(env, next[a]).Some?
      ensures DedupKey(env, next[a]) != DedupKey(env, next[b])
    {
      assert a != r.memoryId ==> next[a] == t[a];
      assert b != r.memoryId ==> next[b] == t[b];
    }
  }

  /** A record with no duplicate among its rivals has a key of its own. */
  lemma NewKeyIsDistinct(env: Env, t: Table, r: Record, rows: seq<Record>)
    requires Keyed(t) && Lists(t, Rivals(r), rows) && FirstDuplicate(env, rows, r) == None
    ensures DedupKey(env, r).Some? ==>
      forall id :: id in t && Live(t[id]) ==> DedupKey(env, t[id]) != DedupKey(env, r)
  {
    NoFirstDuplicate(env, rows, r);
    if DedupKey(env, r).Some? {
      forall id | id in t && Live(t[id]) ensures DedupKey(env, t[id]) != DedupKey(env, r) {
        KeySharersAreRivals(env, r, t[id]);
        assert Rivals(r)(t[id]) ==> t[id] in rows;
      }
    }
  }

  lemma KeySharersAreRivals(env: Env, r: Record, x: Record)
    requires DedupKey(env, r).Some? && Live(x)
    ensures DedupKey(env, x) == DedupKey(env, r) ==> Rivals(r)(x)
  {
    if DedupKey(env, x) == DedupKey(env, r) {
      DuplicatesShareConflictKey(env, r, x);
    }
  }

  /** Intake keeps live duplicate keys distinct. */
  lemma StoreCandidateKeepsDistinct(env: Env, t: Table, record: Record, now: int)
    requires Keyed(t) && NoLiveDuplicates(env, t)
    requires StoreCandidate(env, t, record, now).Ok?
    ensures NoLiveDuplicates(env, StoreCandidate(env, t, record, now).value.table)
  {
    var rows := Listing(t, Rivals(record));
    var candidate := record.(status := Candidate);
    var out := StoreCandidate(env, t, record, now).value;
    if out.action == Created {
      CreationKeepsDistinct(env, t, record, rows, now);
    } else if out.action == Conflicted {
      WriteKeepsDistinct(env, t, candidate.(status := Conflict, evidence := candidate.evidence.(
        conflictsWith := ConflictIds(env, rows, candidate, now))), now);
    }
  }

  lemma StatusKeepsRivals(t: Table, record: Record, rows: seq<Record>)
    requires Lists(t, Rivals(record), rows)
    ensures Lists(t, Rivals(record.(status := Candidate)), rows)
  {
    forall r: Record ensures Rivals(record)(r) == Rivals(record.(status := Candidate))(r) {
    }
  }

  lemma CreationKeepsDistinct(env: Env, t: Table, record: Record, rows: seq<Record>, now: int)
    requires Keyed(t) && NoLiveDuplicates(env, t) && Lists(t, Rivals(record), rows)
    requires FirstDuplicate(env, rows, record.(status := Candidate)) == None
    ensures NoLiveDuplicates(env, Upserted(t, record.(status := Candidate), now))
  {
    var candidate := record.(status := Candidate);
    StatusKeepsRivals(t, record, rows);
    NewKeyIsDistinct(env, t, candidate, rows);
    WriteKeepsDistinct(env, t, candidate, now);
  }

  // ---------- when intake writes ----------

  /** The rival at `id` shares the record's duplicate key. */
  ghost predicate DuplicateAt(env: Env, t: Table, record: Record, id: string) {
    id in t && Rivals(record)(t[id]) && DedupKey(env, t[id]) == DedupKey(env, record)
  }

  ghost predicate ConflictAt(env: Env, t: Table, record: Record, now: int, id: string) {
    id in t && Rivals(record)(t[id]) && IsConflict(env, t[id], record, now)
  }

  /** An L1 atom is written when it has no rival (with one the code raises), any
      other record when it contradicts a rival or no rival shares its duplicate key. */
  ghost predicate IntakeWrites(env: Env, t: Table, record: Record, now: int) {
    if record.payload.L1? then forall id :: id in t ==> !Rivals(record)(t[id])
    else (exists id :: ConflictAt(env, t, record, now, id)) || forall id :: !DuplicateAt(env, t, record, id)
  }

  /** The table after intake; an intake that raises leaves it as it was. */
  ghost function Taken(env: Env, t: Table, record: Record, now: int): Table
    requires Keyed(t)
  {
    var r := StoreCandidate(env, t, record, now);
    if r.Ok? then r.value.table else t
  }

  lemma {:induction false} ConflictIdsExact(env: Env, rows: seq<Record>, candidate: Record, now: int)
    ensures ConflictIds(env, rows, candidate, now) != [] <==> exists r :: r in rows && IsConflict(env, r, candidate, now)
  {
    if rows != [] {
      ConflictIdsExact(env, rows[1..], candidate, now);
      assert forall r :: r in rows <==> r == rows[0] || r in rows[1..];
    }
  }

  lemma RivalRows(t: Table, record: Record)
    requires Keyed(t)
    ensures forall r :: r in Listing(t, Rivals(record)) <==> r.memoryId in t && t[r.memoryId] == r && Rivals(record)(r)
  {
  }

  /** Intake writes, a candidate or a conflict under the record's own id and owner,
      exactly under that condition, and otherwise changes nothing. */
  lemma IntakeWritesExactly(env: Env, t: Table, record: Record, now: int)
    requires Keyed(t)
    ensures IntakeWrites(env, t, record, now) <==>
      StoreCandidate(env, t, record, now).Ok? && StoreCandidate(env, t, record, now).value.action != Duplicate
    ensures !IntakeWrites(env, t, record, now) ==> Taken(env, t, record, now) == t
    ensures IntakeWrites(env, t, record, now) ==>
      var next := Taken(env, t, record, now);
      && record.memoryId in next && next == t[record.memoryId := next[record.memoryId]]
      && next[record.memoryId].ownerId == record.ownerId
      && (next[record.memoryId].status == Candidate || next[record.memoryId].status == Conflict)
  {
    var rows := Listing(t, Rivals(record));
    RivalRows(t, record);
    RivalsByRow(env, t, record, rows, now);
    StoreAmongWrites(env, t, rows, record, now);
  }

  /** The rows let the record be written. */
  ghost predicate RowsLet(env: Env, rows: seq<Record>, record: Record, now: int) {
    if record.payload.L1? then rows == []
    else
      || (exists r :: r in rows && IsConflict(env, r, record.(status := Candidate), now))
      || (forall r :: r in rows ==> DedupKey(env, r) != DedupKey(env, record.(status := Candidate)))
  }

  lemma StoreAmongWrites(env: Env, t: Table, rows: seq<Record>, record: Record, now: int)
    ensures var out := StoreAmong(env, t, rows, record, now);
      && (RowsLet(env, rows, record, now) <==> out.Ok? && out.value.action != Duplicate)
      && (out.Ok? && out.value.action == Duplicate ==> out.value.table == t)
      && (RowsLet(env, rows, record, now) ==>
            && record.memoryId in out.value.table
            && out.value.table == t[record.memoryId := out.value.table[record.memoryId]]
            && out.value.table[record.memoryId].ownerId == record.ownerId
            && (out.value.table[record.memoryId].status == Candidate || out.value.table[record.memoryId].status == Conflict))
  {
    var candidate := record.(status := Candidate);
    ConflictIdsExact(env, rows, candidate, now);
    NoFirstDuplicate(env, rows, candidate);
  }

  /** What holds of the rivals holds of the rows that list them. */
  lemma RivalsByRow(env: Env, t: Table, record: Record, rows: seq<Record>, now: int)
    requires Keyed(t)
    requires forall r :: r in rows <==> r.memoryId in t && t[r.memoryId] == r && Rivals(record)(r)
    ensures IntakeWrites(env, t, record, now) <==> RowsLet(env, rows, record, now)
  {
    if record.payload.L1? {
      NoRivals(t, record, rows);
    } else {
      ConflictingRivals(env, t, record, rows, now);
      DuplicateRivals(env, t, record, rows);
    }
  }

  lemma NoRivals(t: Table, record: Record, rows: seq<Record>)
    requires Keyed(t)
    requires forall r :: r in rows <==> r.memoryId in t && t[r.memoryId] == r && Rivals(record)(r)
    ensures (forall id :: id in t ==> !Rivals(record)(t[id])) <==> rows == []
  {
    if id :| id in t && Rivals(record)(t[id]) {
      assert t[id] in rows;
    }
    if rows != [] {
      assert rows[0] in rows;
    }
  }

  lemma ConflictingRivals(env: Env, t: Table, record: Record, rows: seq<Record>, now: int)
    requires Keyed(t)
    requires forall r :: r in rows <==> r.memoryId in t && t[r.memoryId] == r && Rivals(record)(r)
    ensures (exists id :: ConflictAt(env, t, record, now, id)) <==>
            exists r :: r in rows && IsConflict(env, r, record.(status := Candidate), now)
  {
    if id :| ConflictAt(env, t, record, now, id) {
      assert t[id] in rows && IsConflict(env, t[id], record.(status := Candidate), now);
    }
    if r :| r in rows && IsConflict(env, r, record.(status := Candidate), now) {
      assert ConflictAt(env, t, record, now, r.memoryId);
    }
  }

  lemma DuplicateRivals(env: Env, t: Table, record: Record, rows: seq<Record>)
    requires Keyed(t)
    requires forall r :: r in rows <==> r.memoryId in t && t[r.memoryId] == r && Rivals(record)(r)
    ensures (exists id :: DuplicateAt(env, t, record, id)) <==>
            exists r :: r in rows && DedupKey(env, r) == DedupKey(env, record.(status := Candidate))
  {
    if id :| DuplicateAt(env, t, record, id) {
      assert t[id] in rows;
    }
    if r :| r in rows && DedupKey(env, r) == DedupKey(env, record.(status := Candidate)) {
      assert DuplicateAt(env, t, record, r.memoryId);
    }
  }

  /** Intake leaves every other owner's record as it was exactly when the record's id
      is new or its owner's already, or intake writes nothing. */
  lemma OtherOwnersKept(env: Env, t: Table, record: Record, now: int)
    requires Keyed(t)
    ensures var next := Taken(env, t, record, now);
      (forall id :: id in t && t[id].ownerId != record.ownerId ==> id in next && next[id] == t[id]) <==>
      record.memoryId !in t || t[record.memoryId].ownerId == record.ownerId || !IntakeWrites(env, t, record, now)
  {
    IntakeWritesExactly(env, t, record, now);
  }

  lemma {:induction false} SummariesNeverConflict(env: Env, rows: seq<Record>, candidate: Record, now: int)
    requires candidate.payload.CandidateSummary?
    ensures ConflictIds(env, rows, candidate, now) == []
  {
    if rows != [] {
      SummariesNeverConflict(env, rows[1..], candidate, now);
    }
  }

  /** The id of a chat candidate does not depend on its owner, so intake for one
      owner replaces another owner's record of the same session and summary,
      whatever its status. */
  lemma ChatIntakeReplacesOtherOwner(env: Env, t: Table, sessionId: string, a: string, b: string, summary: string,
                                     now: int)
    requires Keyed(t) && a != b
    requires RagCandidate(env, sessionId, a, summary).memoryId in t
    requires t[RagCandidate(env, sessionId, a, summary).memoryId].ownerId == a
    requires forall id :: id in t && t[id].status != Deprecated ==>
      DedupKey(env, t[id]) != DedupKey(env, RagCandidate(env, sessionId, b, summary))
    ensures var id := RagCandidate(env, sessionId, a, summary).memoryId;
      var next := StoreCandidate(env, t, RagCandidate(env, sessionId, b, summary), now);
      next.Ok? && next.value.table.Keys == t.Keys && next.value.table[id].ownerId == b
      && next.value.table[id].status == Candidate
  {
    var candidate := RagCandidate(env, sessionId, b, summary);
    var rows := Listing(t, Rivals(candidate));
    assert candidate == candidate.(status := Candidate);
    SummariesNeverConflict(env, rows, candidate, now);
    NoFirstDuplicate(env, rows, candidate);
    forall r | r in rows ensures DedupKey(env, r) != DedupKey(env, candidate) {
      var k :| 0 <= k < |rows| && rows[k] == r;
      assert r.memoryId in t;
    }
  }
}
