/** Lifecycle transitions: automatic stale marking, restore and supersede. */
module MemoryLifecycle {
  import opened Wrappers
  import opened PyText
  import opened TotalOrders
  import opened MemoryModels
  import opened MemoryStore
  import opened ConflictDetector

  const CONFLICT_TRIGGER: string := "conflict_detector"
  const REVIEW_TRIGGER: string := "operator-review"

  /** `_merge_evidence`: overwrite the given keys, append the event, keep the rest. */
  function MergeEvidence(e: Evidence, updates: map<string, string>, event: Transition): Evidence {
    e.(fields := e.fields + updates, lifecycleEvents := e.lifecycleEvents + [event])
  }

  // ---------- the three transitions on one record ----------

  function VerdictText(v: Verdict): string {
    match v
    case NoConflict => "no_conflict"
    case PossibleConflict => "possible_conflict"
    case SupersessionCandidate => "supersession_candidate"
  }

  /** What a conflict leaves in the evidence and in the event. */
  function ConflictDetails(atom: Atom, verdict: Verdict, reason: string): map<string, string> {
    map["conflicting_atom_id" := atom.atomId, "evidence_id" := atom.evidenceId, "conflict_reason" := reason,
        "conflict_verdict" := VerdictText(verdict)]
  }

  /** What an operator decision leaves in the event, as given. */
  function DecisionDetails(reviewer: string, note: string, source: string): map<string, string> {
    map["reviewer_id" := reviewer, "decision_note" := note, "decision_source" := source]
  }

  function Staled(r: Record, atom: Atom, verdict: Verdict, reason: string, now: int): Record {
    var details := ConflictDetails(atom, verdict, reason);
    r.(status := StaleSuspect,
       evidence := MergeEvidence(
         r.evidence, details["review_required" := "true"],
         Transition(Active, StaleSuspect, CONFLICT_TRIGGER, now, details)))
  }

  function Restored(r: Record, review: Review, details: map<string, string>, now: int): Record {
    r.(status := Active,
       review := Some(review),
       evidence := MergeEvidence(
         r.evidence, map["review_reverted" := "true", "review_reverted_from" := "stale_suspect"],
         Transition(StaleSuspect, Active, REVIEW_TRIGGER, now, details)))
  }

  function SupersededBy(r: Record, successor: string, review: Review, details: map<string, string>, now: int): Record {
    r.(status := Superseded,
       review := Some(review),
       evidence := MergeEvidence(
         r.evidence, map["superseded_by" := successor, "review_superseded" := "true"],
         Transition(r.status, Superseded, REVIEW_TRIGGER, now, details["superseded_by" := successor])))
  }

  // ---------- the operations on the table ----------

  function MarkStale(t: Table, id: string, atom: Atom, verdict: Verdict, reason: string, now: int): Result<Table> {
    if id !in t then Raised("memory record not found")
    else if t[id].status != Active then Raised("only active memory can be marked as stale_suspect")
    else Ok(Upserted(t, Staled(t[id], atom, verdict, reason, now), now))
  }

  function RestoreActive(t: Table, id: string, reviewer: string, note: string, source: string, now: int): Result<Table> {
    if id !in t then Raised("memory record not found")
    else if t[id].status != StaleSuspect then Raised("only stale_suspect memory can be restored to active")
    else
      match BuildReview(Approve, reviewer, note, t[id].status, source, now)
      case Raised(e) => Raised(e)
      case Ok(review) => Ok(Upserted(t, Restored(t[id], review, DecisionDetails(reviewer, note, source), now), now))
  }

  function MarkSuperseded(t: Table, id: string, successor: string, reviewer: string, note: string, source: string, now: int)
    : Result<Table>
  {
    if id !in t then Raised("memory record not found")
    else if t[id].status != Active && t[id].status != StaleSuspect then
      Raised("only active or stale_suspect memory can be superseded")
    else if Blank(successor) then Raised("superseded_by is required")
    else
      match BuildReview(Supersede, reviewer, note, t[id].status, source, now)
      case Raised(e) => Raised(e)
      case Ok(review) => Ok(Upserted(t, SupersededBy(t[id], Strip(successor), review, DecisionDetails(reviewer, note, source), now), now))
  }

  // ---------- automatic stale marking ----------

  datatype Finding = Finding(memoryId: string, verdict: Verdict, reason: string)

  /** `sorted(..., key=memory_id)`, a stable sort. */
  predicate FindingLe(a: Finding, b: Finding) {
    StrLe(a.memoryId, b.memoryId)
  }

  /** The owner's active records. */
  function Suspects(atom: Atom): Record -> bool {
    Matches(Filter(atom.ownerId, None, None, Some(Active)))
  }

  /** The rows with a verdict, each under its stripped id. */
  function FindingsOf(rules: Rules, atom: Atom, rows: seq<Record>, now: int): seq<Finding> {
    if rows == [] then []
    else FindingOf(rules, atom, rows[0], now) + FindingsOf(rules, atom, rows[1..], now)
  }

  function FindingOf(rules: Rules, atom: Atom, r: Record, now: int): seq<Finding> {
    var v := VerdictOf(rules, atom, r, now);
    if v != NoConflict then [Finding(Strip(r.memoryId), v, rules.reason(atom, r))] else []
  }

  /** A result object is built for every row, and refuses a blank memory id.  The
      atom's own texts are never blank: an atom with blank ones cannot be made. */
  predicate AnyBlankId(rows: seq<Record>) {
    exists k :: 0 <= k < |rows| && Blank(rows[k].memoryId)
  }

  /** What `detect_conflicts` returns when it does not raise. */
  ghost function Detected(rules: Rules, t: Table, atom: Atom, now: int): seq<Finding>
    requires Keyed(t)
  {
    Sort(FindingLe, FindingsOf(rules, atom, Listing(t, Suspects(atom)), now))
  }

  ghost predicate DetectionRaises(t: Table, atom: Atom)
    requires Keyed(t)
  {
    AnyBlankId(Listing(t, Suspects(atom)))
  }

  method DetectConflicts(store: Store, rules: Rules, atom: Atom, now: int) returns (r: Result<seq<Finding>>)
    requires Keyed(store.records)
    ensures r.Raised? <==> DetectionRaises(store.records, atom)
    ensures r.Ok? ==> r.value == Detected(rules, store.records, atom, now)
  {
    var candidates := store.ListMemories(Filter(atom.ownerId, None, None, Some(Active)));
    var results: seq<Finding> := [];
    for i := 0 to |candidates|
      invariant Detecting(rules, atom, candidates, i, results, now)
    {
      DetectingStep(rules, atom, candidates, i, results, now);
      if Blank(candidates[i].memoryId) {
        return Raised("value is required");
      }
      results := results + FindingOf(rules, atom, candidates[i], now);
    }
    DetectingEnd(rules, atom, candidates, results, now);
    return Ok(Sort(FindingLe, results));
  }

  /** The detection loop before row `i`. */
  ghost predicate Detecting(rules: Rules, atom: Atom, rows: seq<Record>, i: nat, done: seq<Finding>, now: int)
    requires i <= |rows|
  {
    && FindingsOf(rules, atom, rows, now) == done + FindingsOf(rules, atom, rows[i..], now)
    && !AnyBlankId(rows[..i])
  }

  lemma DetectingEnd(rules: Rules, atom: Atom, rows: seq<Record>, done: seq<Finding>, now: int)
    requires Detecting(rules, atom, rows, |rows|, done, now)
    ensures !AnyBlankId(rows) && FindingsOf(rules, atom, rows, now) == done
  {
    assert rows[..|rows|] == rows && done + [] == done;
  }

  lemma DetectingStep(rules: Rules, atom: Atom, rows: seq<Record>, i: nat, done: seq<Finding>, now: int)
    requires i < |rows| && Detecting(rules, atom, rows, i, done, now)
    ensures if Blank(rows[i].memoryId) then AnyBlankId(rows)
            else Detecting(rules, atom, rows, i + 1, done + FindingOf(rules, atom, rows[i], now), now)
  {
    assert rows[i..][0] == rows[i] && rows[i..][1..] == rows[i + 1..];
    assert rows[..i + 1] == rows[..i] + [rows[i]];
    forall k | 0 <= k < i ensures !Blank(rows[k].memoryId) {
      assert rows[..i][k] == rows[k];
    }
  }

  /** Marks the findings one after the other; the first failure stops the loop and
      what was marked stays marked. */
  function MarkAll(t: Table, findings: seq<Finding>, atom: Atom, now: int): (Table, bool)
    decreases |findings|
  {
    if findings == [] then (t, true)
    else
      var f := findings[0];
      match MarkStale(t, f.memoryId, atom, f.verdict, f.reason, now)
      case Raised(_) => (t, false)
      case Ok(next) => MarkAll(next, findings[1..], atom, now)
  }

  datatype Application = Done | DetectionRaised | MarkingRaised

  /** `apply_conflicts_for_atom`. */
  ghost function ApplyConflicts(rules: Rules, t: Table, atom: Atom, now: int): (Table, Application)
    requires Keyed(t)
  {
    if DetectionRaises(t, atom) then (t, DetectionRaised)
    else
      var (next, ok) := MarkAll(t, Detected(rules, t, atom, now), atom, now);
      (next, if ok then Done else MarkingRaised)
  }

  datatype Metrics = Metrics(transitions: nat, failures: nat, staleMarked: nat, reverted: nat)

  class MemoryLifecycleService {
    const store: Store
    const rules: Rules
    var metrics: Metrics

    constructor (store: Store, rules: Rules)
      ensures this.store == store && this.rules == rules && metrics == Metrics(0, 0, 0, 0)
    {
      this.store, this.rules, metrics := store, rules, Metrics(0, 0, 0, 0);
    }

    method MarkStaleSuspect(id: string, atom: Atom, verdict: Verdict, reason: string, now: int) returns (r: Result<Record>)
      requires Keyed(store.records)
      modifies this, store
      ensures match MarkStale(old(store.records), id, atom, verdict, reason, now)
        case Ok(next) =>
          && r.Ok? && store.records == next && id in next && r.value == next[id]
          && metrics == old(metrics).(transitions := old(metrics.transitions) + 1,
                                      staleMarked := old(metrics.staleMarked) + 1)
        case Raised(e) => r == Raised(e) && store.records == old(store.records) && metrics == old(metrics)
    {
      var record := store.Get(id);
      if record.None? {
        return Raised("memory record not found");
      }
      if record.value.status != Active {
        return Raised("only active memory can be marked as stale_suspect");
      }
      var updated := store.Upsert(Staled(record.value, atom, verdict, reason, now), now);
      metrics := metrics.(transitions := metrics.transitions + 1, staleMarked := metrics.staleMarked + 1);
      return Ok(updated);
    }

    method Restore(id: string, reviewer: string, note: string, source: string, now: int) returns (r: Result<Record>)
      requires Keyed(store.records)
      modifies this, store
      ensures match RestoreActive(old(store.records), id, reviewer, note, source, now)
        case Ok(next) =>
          && r.Ok? && store.records == next && id in next && r.value == next[id]
          && metrics == old(metrics).(transitions := old(metrics.transitions) + 1, reverted := old(metrics.reverted) + 1)
        case Raised(e) => r == Raised(e) && store.records == old(store.records) && metrics == old(metrics)
    {
      var record := store.Get(id);
      if record.None? {
        return Raised("memory record not found");
      }
      if record.value.status != StaleSuspect {
        return Raised("only stale_suspect memory can be restored to active");
      }
      var review := BuildReview(Approve, reviewer, note, record.value.status, source, now);
      if review.Raised? {
        return Raised(review.reason);
      }
      var updated := store.Upsert(Restored(record.value, review.value, DecisionDetails(reviewer, note, source), now), now);
      metrics := metrics.(transitions := metrics.transitions + 1, reverted := metrics.reverted + 1);
      return Ok(updated);
    }

    method SupersedeRecord(id: string, successor: string, reviewer: string, note: string, source: string, now: int)
      returns (r: Result<Record>)
      requires Keyed(store.records)
      modifies this, store
      ensures match MarkSuperseded(old(store.records), id, successor, reviewer, note, source, now)
        case Ok(next) =>
          && r.Ok? && store.records == next && id in next && r.value == next[id]
          && metrics == old(metrics).(transitions := old(metrics.transitions) + 1)
        case Raised(e) => r == Raised(e) && store.records == old(store.records) && metrics == old(metrics)
    {
      var record := store.Get(id);
      if record.None? {
        return Raised("memory record not found");
      }
      if record.value.status != Active && record.value.status != StaleSuspect {
        return Raised("only active or stale_suspect memory can be superseded");
      }
      if Blank(successor) {
        return Raised("superseded_by is required");
      }
      var review := BuildReview(Supersede, reviewer, note, record.value.status, source, now);
      if review.Raised? {
        return Raised(review.reason);
      }
      var updated := store.Upsert(SupersededBy(record.value, Strip(successor), review.value, DecisionDetails(reviewer, note, source), now), now);
      metrics := metrics.(transitions := metrics.transitions + 1);
      return Ok(updated);
    }

    /** A failure while marking keeps the records marked so far and is counted
        once; a failure of the detection is not counted. */
    method ApplyConflictsForAtom(atom: Atom, now: int) returns (r: Result<seq<Record>>)
      requires Keyed(store.records)
      modifies this, store
      ensures store.records == ApplyConflicts(rules, old(store.records), atom, now).0
      ensures r.Ok? <==> ApplyConflicts(rules, old(store.records), atom, now).1 == Done
      ensures metrics.failures == old(metrics.failures)
        + if ApplyConflicts(rules, old(store.records), atom, now).1 == MarkingRaised then 1 else 0
      ensures r.Ok? ==> metrics.staleMarked == old(metrics.staleMarked) + |r.value|
      ensures r.Ok? ==> metrics.transitions == old(metrics.transitions) + |r.value|
    {
      var detected := DetectConflicts(store, rules, atom, now);
      if detected.Raised? {
        return Raised(detected.reason);
      }
      r := MarkFindings(detected.value, atom, now);
    }

    /** The marking loop. */
    method MarkFindings(findings: seq<Finding>, atom: Atom, now: int) returns (r: Result<seq<Record>>)
      requires Keyed(store.records)
      modifies this, store
      ensures (store.records, r.Ok?) == MarkAll(old(store.records), findings, atom, now)
      ensures metrics.failures == old(metrics.failures) + if r.Ok? then 0 else 1
      ensures r.Ok? ==> metrics.staleMarked == old(metrics.staleMarked) + |r.value|
      ensures r.Ok? ==> metrics.transitions == old(metrics.transitions) + |r.value|
    {
      var updated: seq<Record> := [];
      ghost var start, result := old(metrics), MarkAll(store.records, findings, atom, now);
      for i := 0 to |findings|
        invariant Keyed(store.records)
        invariant result == MarkAll(store.records, findings[i..], atom, now)
        invariant |updated| == i && metrics == start.(transitions := start.transitions + i,
                                                      staleMarked := start.staleMarked + i)
      {
        assert findings[i..][0] == findings[i] && findings[i..][1..] == findings[i + 1..];
        var marked := MarkStaleSuspect(findings[i].memoryId, atom, findings[i].verdict, findings[i].reason, now);
        if marked.Raised? {
          metrics := metrics.(failures := metrics.failures + 1);
          return Raised(marked.reason);
        }
        updated := updated + [marked.value];
      }
      return Ok(updated);
    }
  }

  // ---------- when marking succeeds ----------

  ghost predicate DistinctFindings(fs: seq<Finding>) {
    forall j, k :: 0 <= j < k < |fs| ==> fs[j].memoryId != fs[k].memoryId
  }

  ghost predicate NamesActive(t: Table, id: string) {
    id in t && t[id].status == Active
  }

  /** Marking succeeds exactly when the findings name distinct active records. */
  lemma {:induction false} MarkAllSucceeds(t: Table, fs: seq<Finding>, atom: Atom, now: int)
    requires Keyed(t)
    ensures MarkAll(t, fs, atom, now).1 <==> DistinctFindings(fs) && forall f :: f in fs ==> NamesActive(t, f.memoryId)
    decreases |fs|
  {
    if fs != [] {
      var f := fs[0];
      assert fs == [f] + fs[1..];
      if NamesActive(t, f.memoryId) {
        var t1 := Upserted(t, Staled(t[f.memoryId], atom, f.verdict, f.reason, now), now);
        assert forall id :: NamesActive(t1, id) <==> NamesActive(t, id) && id != f.memoryId;
        MarkAllSucceeds(t1, fs[1..], atom, now);
      }
    }
  }

  /** Marking distinct active records one by one marks them all. */
  lemma {:induction false} MarkAllExact(t: Table, fs: seq<Finding>, atom: Atom, now: int)
    requires Keyed(t) && DistinctFindings(fs)
    requires forall f :: f in fs ==> NamesActive(t, f.memoryId)
    ensures var next := MarkAll(t, fs, atom, now).0;
      && next.Keys == t.Keys
      && (forall f :: f in fs ==>
            f.memoryId in next && next[f.memoryId] == Staled(t[f.memoryId], atom, f.verdict, f.reason, now).(updatedAt := now))
      && (forall id :: id in t && (forall f :: f in fs ==> f.memoryId != id) ==> next[id] == t[id])
    decreases |fs|
  {
    if fs != [] {
      var f := fs[0];
      var t1 := Upserted(t, Staled(t[f.memoryId], atom, f.verdict, f.reason, now), now);
      forall g | g in fs[1..] ensures g in fs && g.memoryId != f.memoryId && t1[g.memoryId] == t[g.memoryId] {
      }
      MarkAllExact(t1, fs[1..], atom, now);
      assert forall g :: g in fs ==> g == f || g in fs[1..];
    }
  }

  lemma {:induction false} InsertFinding(f: Finding, fs: seq<Finding>)
    ensures DistinctFindings(Insert(FindingLe, f, fs)) <==>
      DistinctFindings(fs) && forall g :: g in fs ==> g.memoryId != f.memoryId
  {
    InsertElements(FindingLe, f, fs);
    if fs != [] && !FindingLe(f, fs[0]) {
      var rest := Insert(FindingLe, f, fs[1..]);
      InsertFinding(f, fs[1..]);
      InsertElements(FindingLe, f, fs[1..]);
      DistinctThen(fs[0], rest);
      DistinctThen(fs[0], fs[1..]);
      assert fs == [fs[0]] + fs[1..];
    } else {
      DistinctThen(f, fs);
    }
  }

  lemma DistinctThen(f: Finding, fs: seq<Finding>)
    ensures DistinctFindings([f] + fs) <==> DistinctFindings(fs) && forall g :: g in fs ==> g.memoryId != f.memoryId
  {
    var all := [f] + fs;
    assert forall k :: 0 <= k < |fs| ==> all[k + 1] == fs[k];
    if DistinctFindings(all) {
      forall j, k | 0 <= j < k < |fs| ensures fs[j].memoryId != fs[k].memoryId {
        assert all[j + 1].memoryId != all[k + 1].memoryId;
      }
      forall g | g in fs ensures g.memoryId != f.memoryId {
        var k :| 0 <= k < |fs| && fs[k] == g;
        assert all[0].memoryId != all[k + 1].memoryId;
      }
    }
  }

  /** Sorting keeps the findings, and their ids distinct or not. */
  lemma {:induction false} SortFindings(fs: seq<Finding>)
    ensures DistinctFindings(Sort(FindingLe, fs)) <==> DistinctFindings(fs)
    ensures forall f :: f in Sort(FindingLe, fs) <==> f in fs
  {
    if fs != [] {
      SortFindings(fs[1..]);
      InsertFinding(fs[0], Sort(FindingLe, fs[1..]));
      InsertElements(FindingLe, fs[0], Sort(FindingLe, fs[1..]));
      DistinctThen(fs[0], fs[1..]);
      assert fs == [fs[0]] + fs[1..];
    }
  }

  lemma {:induction false} FindingsExact(rules: Rules, atom: Atom, rows: seq<Record>, now: int, f: Finding)
    ensures f in FindingsOf(rules, atom, rows, now) <==> exists r :: r in rows && f in FindingOf(rules, atom, r, now)
  {
    if rows != [] {
      FindingsExact(rules, atom, rows[1..], now, f);
      assert forall r :: r in rows <==> r == rows[0] || r in rows[1..];
    }
  }

  ghost predicate Clash(rules: Rules, atom: Atom, a: Record, b: Record, now: int) {
    && VerdictOf(rules, atom, a, now) != NoConflict && VerdictOf(rules, atom, b, now) != NoConflict
    && Strip(a.memoryId) == Strip(b.memoryId)
  }

  ghost predicate NoClash(rules: Rules, atom: Atom, rows: seq<Record>, now: int) {
    forall j, k :: 0 <= j < k < |rows| ==> !Clash(rules, atom, rows[j], rows[k], now)
  }

  /** The findings have distinct ids exactly when no two rows with a verdict have
      the same stripped id. */
  lemma {:induction false} FindingsDistinct(rules: Rules, atom: Atom, rows: seq<Record>, now: int)
    ensures DistinctFindings(FindingsOf(rules, atom, rows, now)) <==> NoClash(rules, atom, rows, now)
  {
    if rows != [] {
      var later := FindingsOf(rules, atom, rows[1..], now);
      FindingsDistinct(rules, atom, rows[1..], now);
      NoClashTail(rules, atom, rows, now);
      var v := VerdictOf(rules, atom, rows[0], now);
      if v != NoConflict {
        DistinctThen(FindingOf(rules, atom, rows[0], now)[0], later);
        HeadClashes(rules, atom, rows, now);
      } else {
        assert [] + later == later;
      }
    }
  }

  lemma NoClashTail(rules: Rules, atom: Atom, rows: seq<Record>, now: int)
    requires rows != []
    ensures NoClash(rules, atom, rows, now) <==>
      NoClash(rules, atom, rows[1..], now) && forall r :: r in rows[1..] ==> !Clash(rules, atom, rows[0], r, now)
  {
    var tail := rows[1..];
    assert forall k :: 0 <= k < |tail| ==> tail[k] == rows[k + 1];
    if NoClash(rules, atom, rows, now) {
      forall j, k | 0 <= j < k < |tail| ensures !Clash(rules, atom, tail[j], tail[k], now) {
        assert !Clash(rules, atom, rows[j + 1], rows[k + 1], now);
      }
      forall r | r in tail ensures !Clash(rules, atom, rows[0], r, now) {
        var k :| 0 <= k < |tail| && tail[k] == r;
        assert !Clash(rules, atom, rows[0], rows[k + 1], now);
      }
    } else {
      var j, k :| 0 <= j < k < |rows| && Clash(rules, atom, rows[j], rows[k], now);
      assert rows[k] == tail[k - 1] && (j > 0 ==> rows[j] == tail[j - 1]);
    }
  }

  lemma HeadClashes(rules: Rules, atom: Atom, rows: seq<Record>, now: int)
    requires rows != [] && VerdictOf(rules, atom, rows[0], now) != NoConflict
    ensures (forall r :: r in rows[1..] ==> !Clash(rules, atom, rows[0], r, now)) <==>
      forall g :: g in FindingsOf(rules, atom, rows[1..], now) ==> g.memoryId != Strip(rows[0].memoryId)
  {
    var tail, later := rows[1..], FindingsOf(rules, atom, rows[1..], now);
    forall g | g in later ensures exists r :: r in tail && g in FindingOf(rules, atom, r, now) {
      FindingsExact(rules, atom, tail, now, g);
    }
    forall r | r in tail && VerdictOf(rules, atom, r, now) != NoConflict
      ensures FindingOf(rules, atom, r, now)[0] in later
    {
      FindingsExact(rules, atom, tail, now, FindingOf(rules, atom, r, now)[0]);
    }
  }

  // ---------- what stale marking does ----------

  /** The record contradicts the atom. */
  ghost predicate Conflicting(rules: Rules, t: Table, atom: Atom, now: int, id: string) {
    id in t && VerdictOf(rules, atom, t[id], now) != NoConflict
  }

  /** None of the owner's active records has a blank id. */
  ghost predicate NoBlankIds(t: Table, ownerId: string) {
    forall id :: id in t && t[id].status == Active && t[id].ownerId == ownerId ==> !Blank(id)
  }

  /** The stripped ids of the conflicting records are distinct and each names an
      active record. */
  ghost predicate Resolvable(rules: Rules, t: Table, atom: Atom, now: int) {
    && (forall a, b :: Conflicting(rules, t, atom, now, a) && Conflicting(rules, t, atom, now, b) && a != b ==>
          Strip(a) != Strip(b))
    && (forall a :: Conflicting(rules, t, atom, now, a) ==> NamesActive(t, Strip(a)))
  }

  /** The conflicting records have no surrounding blanks in their ids. */
  ghost predicate Trimmed(rules: Rules, t: Table, atom: Atom, now: int) {
    forall a :: Conflicting(rules, t, atom, now, a) ==> Strip(a) == a
  }

  /** The table with every conflicting record marked, and nothing else. */
  ghost function AllMarked(rules: Rules, t: Table, atom: Atom, now: int): Table {
    map id | id in t :: Marked(rules, t[id], atom, now)
  }

  function Marked(rules: Rules, r: Record, atom: Atom, now: int): Record {
    var v := VerdictOf(rules, atom, r, now);
    if v == NoConflict then r else Staled(r, atom, v, rules.reason(atom, r), now).(updatedAt := now)
  }

  /** A record once marked, or spared, stays as it is. */
  lemma MarkedAgain(rules: Rules, r: Record, atom: Atom, now: int, later: int)
    requires now <= later
    ensures VerdictOf(rules, atom, Marked(rules, r, atom, now), later) == NoConflict
    ensures Marked(rules, Marked(rules, r, atom, now), atom, later) == Marked(rules, r, atom, now)
  {
    VerdictsFade(rules, atom, r, now, later);
  }

  lemma SuspectRows(t: Table, atom: Atom)
    requires Keyed(t)
    ensures forall r :: r in Listing(t, Suspects(atom)) <==> r.memoryId in t && t[r.memoryId] == r && Suspects(atom)(r)
  {
  }

  lemma DetectionRaisesExactly(t: Table, atom: Atom)
    requires Keyed(t)
    ensures DetectionRaises(t, atom) <==> !NoBlankIds(t, atom.ownerId)
  {
    var rows := Listing(t, Suspects(atom));
    SuspectRows(t, atom);
    if k :| 0 <= k < |rows| && Blank(rows[k].memoryId) {
      assert rows[k] in rows;
    }
    if id :| id in t && t[id].status == Active && t[id].ownerId == atom.ownerId && Blank(id) {
      assert t[id] in rows;
      var k :| 0 <= k < |rows| && rows[k] == t[id];
    }
  }

  /** The findings are exactly the conflicting records, under stripped ids. */
  lemma DetectedExact(rules: Rules, t: Table, atom: Atom, now: int, f: Finding)
    requires Keyed(t)
    ensures f in Detected(rules, t, atom, now) <==>
      exists id :: Conflicting(rules, t, atom, now, id) && f in FindingOf(rules, atom, t[id], now)
  {
    var rows := Listing(t, Suspects(atom));
    SuspectRows(t, atom);
    FindingsExact(rules, atom, rows, now, f);
    SortFindings(FindingsOf(rules, atom, rows, now));
    if id :| Conflicting(rules, t, atom, now, id) && f in FindingOf(rules, atom, t[id], now) {
      assert t[id] in rows;
    }
    if r :| r in rows && f in FindingOf(rules, atom, r, now) {
      assert Conflicting(rules, t, atom, now, r.memoryId);
    }
  }

  lemma DetectedDistinct(rules: Rules, t: Table, atom: Atom, now: int)
    requires Keyed(t)
    ensures DistinctFindings(Detected(rules, t, atom, now)) <==>
      forall a, b :: Conflicting(rules, t, atom, now, a) && Conflicting(rules, t, atom, now, b) && a != b ==>
        Strip(a) != Strip(b)
  {
    var rows := Listing(t, Suspects(atom));
    SortFindings(FindingsOf(rules, atom, rows, now));
    FindingsDistinct(rules, atom, rows, now);
    if !NoClash(rules, atom, rows, now) {
      RowsClash(rules, t, atom, rows, now);
    }
    forall a, b | Conflicting(rules, t, atom, now, a) && Conflicting(rules, t, atom, now, b) && a != b
      ensures NoClash(rules, atom, rows, now) ==> Strip(a) != Strip(b)
    {
      SuspectRows(t, atom);
      RowsApart(rules, atom, rows, now, t[a], t[b]);
    }
  }

  lemma RowsApart(rules: Rules, atom: Atom, rows: seq<Record>, now: int, a: Record, b: Record)
    requires a in rows && b in rows && a != b
    requires VerdictOf(rules, atom, a, now) != NoConflict && VerdictOf(rules, atom, b, now) != NoConflict
    ensures NoClash(rules, atom, rows, now) ==> Strip(a.memoryId) != Strip(b.memoryId)
  {
    var j :| 0 <= j < |rows| && rows[j] == a;
    var k :| 0 <= k < |rows| && rows[k] == b;
    assert Strip(a.memoryId) == Strip(b.memoryId) ==>
      Clash(rules, atom, rows[j], rows[k], now) && Clash(rules, atom, rows[k], rows[j], now);
  }

  lemma RowsClash(rules: Rules, t: Table, atom: Atom, rows: seq<Record>, now: int)
    requires Keyed(t) && Lists(t, Suspects(atom), rows) && !NoClash(rules, atom, rows, now)
    ensures exists a, b :: Conflicting(rules, t, atom, now, a) && Conflicting(rules, t, atom, now, b) && a != b
                           && Strip(a) == Strip(b)
  {
    var j, k :| 0 <= j < k < |rows| && Clash(rules, atom, rows[j], rows[k], now);
    assert Conflicting(rules, t, atom, now, rows[j].memoryId) && Conflicting(rules, t, atom, now, rows[k].memoryId);
  }

  /** Conflict application succeeds exactly when none of the owner's active records
      has a blank id and the conflicting records resolve; detection raises exactly
      on a blank id and then nothing is written. */
  lemma ApplySucceedsExactly(rules: Rules, t: Table, atom: Atom, now: int)
    requires Keyed(t)
    ensures ApplyConflicts(rules, t, atom, now).1 == Done <==>
      NoBlankIds(t, atom.ownerId) && Resolvable(rules, t, atom, now)
    ensures !NoBlankIds(t, atom.ownerId) ==> ApplyConflicts(rules, t, atom, now) == (t, DetectionRaised)
  {
    var fs := Detected(rules, t, atom, now);
    DetectionRaisesExactly(t, atom);
    MarkAllSucceeds(t, fs, atom, now);
    DetectedDistinct(rules, t, atom, now);
    DetectedActive(rules, t, atom, now);
  }

  lemma DetectedActive(rules: Rules, t: Table, atom: Atom, now: int)
    requires Keyed(t)
    ensures (forall f :: f in Detected(rules, t, atom, now) ==> NamesActive(t, f.memoryId)) <==>
      forall a :: Conflicting(rules, t, atom, now, a) ==> NamesActive(t, Strip(a))
  {
    var fs := Detected(rules, t, atom, now);
    forall a | Conflicting(rules, t, atom, now, a)
      ensures exists f :: f in fs && f.memoryId == Strip(a)
    {
      var f := FindingOf(rules, atom, t[a], now)[0];
      DetectedExact(rules, t, atom, now, f);
      assert f in fs;
    }
    forall f | f in fs ensures exists a :: Conflicting(rules, t, atom, now, a) && f.memoryId == Strip(a) {
      DetectedExact(rules, t, atom, now, f);
    }
  }

  /** It turns exactly the owner's conflicting active records into stale suspects,
      with one new event each, and leaves all others identical, exactly when none of
      the owner's active records has a blank id and the conflicting ids are trimmed. */
  lemma ApplyMarksExactly(rules: Rules, t: Table, atom: Atom, now: int)
    requires Keyed(t)
    ensures ApplyConflicts(rules, t, atom, now) == (AllMarked(rules, t, atom, now), Done) <==>
      NoBlankIds(t, atom.ownerId) && Trimmed(rules, t, atom, now)
  {
    ApplySucceedsExactly(rules, t, atom, now);
    if NoBlankIds(t, atom.ownerId) && Resolvable(rules, t, atom, now) {
      var next := ApplyConflicts(rules, t, atom, now).0;
      MarkedWhere(rules, t, atom, now);
      if Trimmed(rules, t, atom, now) {
        TrimmedAllMarked(rules, t, next, atom, now);
      } else {
        UntrimmedUnmarked(rules, t, next, atom, now);
      }
    } else if Trimmed(rules, t, atom, now) {
      TrimmedResolves(rules, t, atom, now);
    }
  }

  /** The conflicting records are marked where their stripped ids lead, all others kept. */
  ghost predicate MarkedAt(rules: Rules, t: Table, next: Table, atom: Atom, now: int) {
    && next.Keys == t.Keys
    && (forall a :: Conflicting(rules, t, atom, now, a) && Strip(a) == a ==> next[a] == Marked(rules, t[a], atom, now))
    && (forall id :: id in t && (forall a :: Conflicting(rules, t, atom, now, a) ==> Strip(a) != id) ==>
          next[id] == t[id])
  }

  lemma TrimmedResolves(rules: Rules, t: Table, atom: Atom, now: int)
    requires Trimmed(rules, t, atom, now)
    ensures Resolvable(rules, t, atom, now)
  {
  }

  lemma TrimmedAllMarked(rules: Rules, t: Table, next: Table, atom: Atom, now: int)
    requires Trimmed(rules, t, atom, now) && MarkedAt(rules, t, next, atom, now)
    ensures next == AllMarked(rules, t, atom, now)
  {
    forall id | id in t ensures next[id] == Marked(rules, t[id], atom, now) {
      if !Conflicting(rules, t, atom, now, id) {
        assert forall a :: Conflicting(rules, t, atom, now, a) ==> Strip(a) != id;
      }
    }
  }

  lemma UntrimmedUnmarked(rules: Rules, t: Table, next: Table, atom: Atom, now: int)
    requires !Trimmed(rules, t, atom, now) && MarkedAt(rules, t, next, atom, now)
    ensures next != AllMarked(rules, t, atom, now)
  {
    var a :| Conflicting(rules, t, atom, now, a) && Strip(a) != a;
    StripAgain(a);
    forall b | Conflicting(rules, t, atom, now, b) ensures Strip(b) != a {
      StripAgain(b);
    }
    assert next[a] == t[a] != Marked(rules, t[a], atom, now);
  }

  /** A successful application writes at the stripped ids. */
  lemma MarkedWhere(rules: Rules, t: Table, atom: Atom, now: int)
    requires Keyed(t) && NoBlankIds(t, atom.ownerId) && Resolvable(rules, t, atom, now)
    ensures MarkedAt(rules, t, ApplyConflicts(rules, t, atom, now).0, atom, now)
  {
    var fs := Detected(rules, t, atom, now);
    DetectionRaisesExactly(t, atom);
    DetectedDistinct(rules, t, atom, now);
    DetectedActive(rules, t, atom, now);
    MarkAllExact(t, fs, atom, now);
    var next := MarkAll(t, fs, atom, now).0;
    forall a | Conflicting(rules, t, atom, now, a) && Strip(a) == a ensures next[a] == Marked(rules, t[a], atom, now) {
      DetectedExact(rules, t, atom, now, FindingOf(rules, atom, t[a], now)[0]);
    }
    forall id | id in t && (forall a :: Conflicting(rules, t, atom, now, a) ==> Strip(a) != id) ensures next[id] == t[id] {
      NotDetected(rules, t, atom, now, id);
    }
  }

  lemma NotDetected(rules: Rules, t: Table, atom: Atom, now: int, id: string)
    requires Keyed(t) && forall a :: Conflicting(rules, t, atom, now, a) ==> Strip(a) != id
    ensures forall f :: f in Detected(rules, t, atom, now) ==> f.memoryId != id
  {
    forall f | f in Detected(rules, t, atom, now) ensures f.memoryId != id {
      DetectedExact(rules, t, atom, now, f);
    }
  }

  /** Applying the same atom again, then or later, changes nothing. */
  lemma ApplyConflictsAgain(rules: Rules, t: Table, atom: Atom, now: int, later: int)
    requires Keyed(t) && now <= later
    requires NoBlankIds(t, atom.ownerId) && Trimmed(rules, t, atom, now)
    ensures var next := ApplyConflicts(rules, t, atom, now).0;
      Keyed(next) && ApplyConflicts(rules, next, atom, later) == (next, Done)
  {
    var next := AllMarked(rules, t, atom, now);
    ApplyMarksExactly(rules, t, atom, now);
    MarkedIsSettled(rules, t, atom, now, later);
    ApplyMarksExactly(rules, next, atom, later);
  }

  /** Marking leaves no conflict, then or later. */
  lemma MarkedIsSettled(rules: Rules, t: Table, atom: Atom, now: int, later: int)
    requires Keyed(t) && now <= later && NoBlankIds(t, atom.ownerId)
    ensures var next := AllMarked(rules, t, atom, now);
      && Keyed(next) && NoBlankIds(next, atom.ownerId) && Trimmed(rules, next, atom, later)
      && AllMarked(rules, next, atom, later) == next
  {
    var next := AllMarked(rules, t, atom, now);
    forall id | id in next
      ensures Marked(rules, next[id], atom, later) == next[id] && !Conflicting(rules, next, atom, later, id)
      ensures next[id].memoryId == id && (next[id].status == Active ==> next[id] == t[id])
    {
      MarkedAgain(rules, t[id], atom, now, later);
    }
    assert AllMarked(rules, next, atom, later) == next;
  }

  /** An application flags a record for supersession exactly when the record is
      active, of the atom's owner, the evidence current, and the atom names it or,
      being negative and in scope, denies its root cause or its fix. */
  lemma SupersessionFlagged(rules: Rules, t: Table, atom: Atom, now: int, id: string)
    requires Keyed(t) && id in t
    requires NoBlankIds(t, atom.ownerId) && Trimmed(rules, t, atom, now)
    ensures var next := ApplyConflicts(rules, t, atom, now).0;
      id in next &&
      (next[id] != t[id] && "conflict_verdict" in next[id].evidence.fields
       && next[id].evidence.fields["conflict_verdict"] == "supersession_candidate" <==>
       && t[id].status == Active && t[id].ownerId == atom.ownerId && CurrentEnough(rules, atom, now)
       && (Names(atom, id) || DeniedInScope(rules, atom, t[id])))
  {
    ApplyMarksExactly(rules, t, atom, now);
    SupersessionExact(rules, atom, t[id], now);
    MarkedFlag(rules, t[id], atom, now);
  }

  lemma MarkedFlag(rules: Rules, r: Record, atom: Atom, now: int)
    ensures var m := Marked(rules, r, atom, now);
      m != r && "conflict_verdict" in m.evidence.fields
      && m.evidence.fields["conflict_verdict"] == "supersession_candidate" <==>
      VerdictOf(rules, atom, r, now) == SupersessionCandidate
  {
    var v := VerdictOf(rules, atom, r, now);
    if v != NoConflict {
      StaledVerdict(r, atom, v, rules.reason(atom, r), now);
    }
    assert VerdictText(PossibleConflict)[0] == 'p';
  }

  lemma StaledVerdict(r: Record, atom: Atom, v: Verdict, reason: string, now: int)
    requires r.status == Active
    ensures var fields := Staled(r, atom, v, reason, now).evidence.fields;
      "conflict_verdict" in fields && fields["conflict_verdict"] == VerdictText(v)
    ensures Staled(r, atom, v, reason, now).status != r.status
  {
  }

  // ---------- ids that break it ----------

  /** An id with surrounding blanks: the finding carries the stripped id, which
      names no record, so marking raises and is counted; a blank one already raises
      in the detection, with or without a conflict. */
  lemma UntrimmedIdRaises(rules: Rules, r: Record, t: Table, atom: Atom, now: int)
    requires r.status == Active && r.ownerId == atom.ownerId && t == map[r.memoryId := r]
    ensures Blank(r.memoryId) ==> ApplyConflicts(rules, t, atom, now) == (t, DetectionRaised)
    ensures !Blank(r.memoryId) ==>
      (ApplyConflicts(rules, t, atom, now).1 == MarkingRaised <==>
         VerdictOf(rules, atom, r, now) != NoConflict && Strip(r.memoryId) != r.memoryId)
  {
    OneRecord(rules, r, t, atom, now);
    ApplySucceedsExactly(rules, t, atom, now);
    DetectionRaisesExactly(t, atom);
  }

  lemma OneRecord(rules: Rules, r: Record, t: Table, atom: Atom, now: int)
    requires r.status == Active && r.ownerId == atom.ownerId
    requires t.Keys == {r.memoryId} && t[r.memoryId] == r
    ensures NoBlankIds(t, atom.ownerId) <==> !Blank(r.memoryId)
    ensures Resolvable(rules, t, atom, now) <==>
      (VerdictOf(rules, atom, r, now) != NoConflict ==> Strip(r.memoryId) == r.memoryId)
  {
    assert r.memoryId in t;
    if VerdictOf(rules, atom, r, now) != NoConflict {
      assert Conflicting(rules, t, atom, now, r.memoryId);
    }
  }
}
