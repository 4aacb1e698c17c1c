/** Operator review: approve or reject a candidate, deprecate an owner. */
module MemoryReview {
  import opened Wrappers
  import opened PyText
  import opened MemoryModels
  import opened MemoryStore

  function Decided(r: Record, status: Status, review: Review): Record {
    r.(status := status, review := Some(review), candidateReviewDeadline := None)
  }

  function ApproveCandidate(t: Table, id: string, reviewer: string, note: string, source: string, now: int): Result<Table> {
    if id !in t then Raised("memory record not found")
    else if t[id].status != Candidate && t[id].status != Conflict then Raised("memory record is not reviewable")
    else if t[id].status != Candidate then Raised("only candidate memory can be approved")
    else if t[id].payload.CandidateSummary? then Raised("candidate_summary cannot be promoted to active memory")
    else
      match BuildReview(Approve, reviewer, note, t[id].status, source, now)
      case Raised(e) => Raised(e)
      case Ok(review) => Ok(Upserted(t, Decided(t[id], Active, review), now))
  }

  function RejectCandidate(t: Table, id: string, reviewer: string, note: string, source: string, now: int): Result<Table> {
    if id !in t then Raised("memory record not found")
    else if t[id].status != Candidate && t[id].status != Conflict then Raised("memory record is not reviewable")
    else
      match BuildReview(Reject, reviewer, note, t[id].status, source, now)
      case Raised(e) => Raised(e)
      case Ok(review) => Ok(Upserted(t, Decided(t[id], Deprecated, review), now))
  }

  // ---------- owner deprecation ----------

  /** The owner's records that are not yet deprecated. */
  function OwnedAndKept(ownerId: string): Record -> bool {
    (r: Record) => r.ownerId == ownerId && r.status != Deprecated
  }

  /** The records the preview lists, in order. */
  ghost function Plan(t: Table, ownerId: string): seq<Record>
    requires Keyed(t)
  {
    Listing(t, OwnedAndKept(ownerId))
  }

  /** The update loop over the planned records; a blank review text raises. */
  function DeprecateAll(t: Table, plan: seq<Record>, reviewer: string, note: string, source: string, now: int)
    : (Table, Result<seq<Record>>)
    decreases |plan|
  {
    if plan == [] then (t, Ok([]))
    else
      match BuildReview(Deprecate, reviewer, note, plan[0].status, source, now)
      case Raised(e) => (t, Raised(e))
      case Ok(review) =>
        var r := Decided(plan[0], Deprecated, review);
        match DeprecateAll(Upserted(t, r, now), plan[1..], reviewer, note, source, now)
        case (next, Raised(e)) => (next, Raised(e))
        case (next, Ok(rest)) => (next, Ok([r.(updatedAt := now)] + rest))
  }

  ghost function DeprecateOwner(t: Table, ownerId: string, reviewer: string, note: string, source: string, now: int)
    : (Table, Result<seq<Record>>)
    requires Keyed(t)
  {
    DeprecateAll(t, Plan(t, ownerId), reviewer, note, source, now)
  }

  const KEPT_STATUSES: seq<Status> := [Active, Candidate, Conflict, StaleSuspect, Superseded]

  class MemoryReviewService {
    const store: Store

    constructor (store: Store)
      ensures this.store == store
    {
      this.store := store;
    }

    method Approve(id: string, reviewer: string, note: string, source: string, now: int) returns (r: Result<Record>)
      modifies store
      ensures match ApproveCandidate(old(store.records), id, reviewer, note, source, now)
        case Ok(next) =>
          && store.records == next && id in old(store.records)
          && old(store.records)[id].memoryId in next && r == Ok(next[old(store.records)[id].memoryId])
        case Raised(e) => r == Raised(e) && store.records == old(store.records)
    {
      var record := store.Get(id);
      if record.None? {
        return Raised("memory record not found");
      }
      if record.value.status != Candidate && record.value.status != Conflict {
        return Raised("memory record is not reviewable");
      }
      if record.value.status != Candidate {
        return Raised("only candidate memory can be approved");
      }
      if record.value.payload.CandidateSummary? {
        return Raised("candidate_summary cannot be promoted to active memory");
      }
      var review := BuildReview(Decision.Approve, reviewer, note, record.value.status, source, now);
      if review.Raised? {
        return Raised(review.reason);
      }
      var updated := store.Upsert(Decided(record.value, Active, review.value), now);
      return Ok(updated);
    }

    method Reject(id: string, reviewer: string, note: string, source: string, now: int) returns (r: Result<Record>)
      modifies store
      ensures match RejectCandidate(old(store.records), id, reviewer, note, source, now)
        case Ok(next) =>
          && store.records == next && id in old(store.records)
          && old(store.records)[id].memoryId in next && r == Ok(next[old(store.records)[id].memoryId])
        case Raised(e) => r == Raised(e) && store.records == old(store.records)
    {
      var record := store.Get(id);
      if record.None? {
        return Raised("memory record not found");
      }
      if record.value.status != Candidate && record.value.status != Conflict {
        return Raised("memory record is not reviewable");
      }
      var review := BuildReview(Decision.Reject, reviewer, note, record.value.status, source, now);
      if review.Raised? {
        return Raised(review.reason);
      }
      var updated := store.Upsert(Decided(record.value, Deprecated, review.value), now);
      return Ok(updated);
    }

    /** Five listings, one per status, merged and sorted. */
    method OwnerDeprecationRecords(ownerId: string) returns (records: seq<Record>)
      requires Keyed(store.records)
      ensures records == Plan(store.records, ownerId)
    {
      records := [];
      ghost var t := store.records;
      for i := 0 to |KEPT_STATUSES|
        invariant RowsSorted(records)
        invariant forall r :: r in records <==>
          r.memoryId in t && t[r.memoryId] == r && r.ownerId == ownerId && r.status in KEPT_STATUSES[..i]
      {
        var status := KEPT_STATUSES[i];
        assert KEPT_STATUSES[..i + 1] == KEPT_STATUSES[..i] + [status];
        assert status !in KEPT_STATUSES[..i];
        var rows := store.ListMemories(Filter(ownerId, None, None, Some(status)));
        ListsMembers(t, Matches(Filter(ownerId, None, None, Some(status))), rows);
        records := InsertAll(t, rows, records);
      }
      forall r ensures r in records <==> r.memoryId in t && t[r.memoryId] == r && OwnedAndKept(ownerId)(r) {
        assert KEPT_STATUSES[..|KEPT_STATUSES|] == KEPT_STATUSES;
        assert r.status in KEPT_STATUSES <==> r.status != Deprecated;
      }
      assert ListsAmong(t, OwnedAndKept(ownerId), t.Keys, records);
      ListsAmongAll(t, OwnedAndKept(ownerId), records);
      ListsUnique(t, OwnedAndKept(ownerId), records, Plan(t, ownerId));
    }

    method DeprecateOwnerMemories(ownerId: string, reviewer: string, note: string, source: string, now: int)
      returns (r: Result<seq<Record>>)
      requires Keyed(store.records)
      modifies store
      ensures (store.records, r) == DeprecateOwner(old(store.records), ownerId, reviewer, note, source, now)
    {
      var plan := OwnerDeprecationRecords(ownerId);
      ghost var whole := DeprecateAll(store.records, plan, reviewer, note, source, now);
      var updated: seq<Record> := [];
      PrependNothing(whole);
      assert plan[0..] == plan;
      for i := 0 to |plan|
        invariant whole == Prepend(updated, DeprecateAll(store.records, plan[i..], reviewer, note, source, now))
      {
        var record := plan[i];
        DeprecateStep(updated, store.records, plan, i, reviewer, note, source, now);
        var review := BuildReview(Deprecate, reviewer, note, record.status, source, now);
        if review.Raised? {
          return Raised(review.reason);
        }
        var stored := store.Upsert(Decided(record, Deprecated, review.value), now);
        updated := updated + [stored];
      }
      assert plan[|plan|..] == [] && updated + [] == updated;
      return Ok(updated);
    }
  }

  lemma PrependNothing(r: (Table, Result<seq<Record>>))
    ensures Prepend([], r) == r
  {
    assert r.1.Ok? ==> [] + r.1.value == r.1.value;
  }

  /** One round of the update loop. */
  lemma DeprecateStep(updated: seq<Record>, t: Table, plan: seq<Record>, i: nat, reviewer: string, note: string,
                      source: string, now: int)
    requires i < |plan|
    ensures Prepend(updated, DeprecateAll(t, plan[i..], reviewer, note, source, now))
      == var review := BuildReview(Deprecate, reviewer, note, plan[i].status, source, now);
         if review.Raised? then
           (t, Raised(review.reason))
         else
           var r := Decided(plan[i], Deprecated, review.value);
           Prepend(updated + [r.(updatedAt := now)],
                   DeprecateAll(Upserted(t, r, now), plan[i + 1..], reviewer, note, source, now))
  {
    assert plan[i..][0] == plan[i] && plan[i..][1..] == plan[i + 1..];
    var review := BuildReview(Deprecate, reviewer, note, plan[i].status, source, now);
    if review.Ok? {
      var r := Decided(plan[i], Deprecated, review.value);
      var later := DeprecateAll(Upserted(t, r, now), plan[i + 1..], reviewer, note, source, now).1;
      assert later.Ok? ==> updated + ([r.(updatedAt := now)] + later.value) == updated + [r.(updatedAt := now)] + later.value;
    }
  }

  ghost function Prepend(front: seq<Record>, r: (Table, Result<seq<Record>>)): (Table, Result<seq<Record>>) {
    (r.0, if r.1.Ok? then Ok(front + r.1.value) else r.1)
  }

  lemma ListsMembers(t: Table, p: Record -> bool, rows: seq<Record>)
    requires Keyed(t) && Lists(t, p, rows)
    ensures forall r :: r in rows <==> r.memoryId in t && t[r.memoryId] == r && p(r)
  {
  }

  method InsertAll(ghost t: Table, rows: seq<Record>, records: seq<Record>) returns (merged: seq<Record>)
    requires RowsSorted(records)
    requires forall r :: r in rows + records ==> r.memoryId in t && t[r.memoryId] == r
    requires forall r :: r in rows ==> r !in records
    requires forall j, k :: 0 <= j < k < |rows| ==> rows[j].memoryId != rows[k].memoryId
    ensures RowsSorted(merged)
    ensures forall r :: r in merged <==> r in rows || r in records
  {
    merged := records;
    for i := 0 to |rows|
      invariant RowsSorted(merged)
      invariant forall r :: r in merged <==> r in rows[..i] || r in records
    {
      assert rows[..i + 1] == rows[..i] + [rows[i]];
      forall r | r in merged ensures r.memoryId != rows[i].memoryId {
        assert rows[i] in rows + records && r in rows + records;
      }
      InsertRowSorted(rows[i], merged);
      InsertRowMembers(rows[i], merged);
      merged := InsertRow(rows[i], merged);
    }
    assert rows[..|rows|] == rows;
  }

  // ---------- what owner deprecation does ----------

  /** The table with every kept record of the owner deprecated, and nothing else. */
  ghost function OwnerRetired(t: Table, ownerId: string, review: Review, now: int): Table {
    map id | id in t ::
      if OwnedAndKept(ownerId)(t[id]) then
        Retired(t[id], review, now)
      else t[id]
  }

  /** The plan as the update loop needs it: stored records, each once. */
  ghost predicate Planned(t: Table, plan: seq<Record>) {
    && (forall r :: r in plan ==> r.memoryId in t && t[r.memoryId] == r)
    && (forall j, k :: 0 <= j < k < |plan| ==> plan[j].memoryId != plan[k].memoryId)
  }

  /** The record after its deprecation. */
  function Retired(r: Record, review: Review, now: int): Record {
    Decided(r, Deprecated, review.(previousStatus := r.status)).(updatedAt := now)
  }

  ghost predicate InPlan(plan: seq<Record>, id: string) {
    exists k :: 0 <= k < |plan| && plan[k].memoryId == id
  }

  lemma PlannedNext(t: Table, plan: seq<Record>, r: Record, now: int)
    requires plan != [] && Planned(t, plan) && r.memoryId == plan[0].memoryId
    ensures Planned(Upserted(t, r, now), plan[1..]) && !InPlan(plan[1..], r.memoryId)
  {
    var t1, later := Upserted(t, r, now), plan[1..];
    assert forall k :: 0 <= k < |later| ==> later[k] == plan[k + 1];
    forall x | x in later ensures x.memoryId in t1 && t1[x.memoryId] == x {
      var k :| 0 <= k < |later| && later[k] == x;
      assert x in plan && plan[0].memoryId != plan[k + 1].memoryId;
    }
  }

  lemma InPlanTail(plan: seq<Record>, id: string)
    requires plan != []
    ensures InPlan(plan, id) <==> plan[0].memoryId == id || InPlan(plan[1..], id)
  {
    if k :| 0 <= k < |plan| && plan[k].memoryId == id {
      assert k > 0 ==> plan[1..][k - 1].memoryId == id;
    }
    if k :| 0 <= k < |plan[1..]| && plan[1..][k].memoryId == id {
      assert plan[k + 1].memoryId == id;
    }
  }

  /** Records outside the plan stay as they are. */
  lemma {:induction false} DeprecateAllSparesOthers(t: Table, plan: seq<Record>, reviewer: string, note: string,
                                                    source: string, now: int, id: string)
    requires Planned(t, plan) && id in t && !InPlan(plan, id)
    ensures var next := DeprecateAll(t, plan, reviewer, note, source, now).0;
      id in next && next[id] == t[id]
    decreases |plan|
  {
    if plan != [] {
      var made := BuildReview(Deprecate, reviewer, note, plan[0].status, source, now);
      if made.Ok? {
        var r := Decided(plan[0], Deprecated, made.value);
        PlannedNext(t, plan, r, now);
        InPlanTail(plan, id);
        DeprecateAllSparesOthers(Upserted(t, r, now), plan[1..], reviewer, note, source, now, id);
      }
    }
  }

  /** Every planned record is retired, and returned in order. */
  lemma {:induction false} DeprecateAllExact(t: Table, plan: seq<Record>, reviewer: string, note: string, source: string,
                                             review: Review, now: int)
    requires BuildReview(Deprecate, reviewer, note, Active, source, now) == Ok(review)
    requires Planned(t, plan)
    ensures var (next, out) := DeprecateAll(t, plan, reviewer, note, source, now);
      && out.Ok? && |out.value| == |plan| && next.Keys == t.Keys
      && (forall k :: 0 <= k < |plan| ==>
            out.value[k] == Retired(plan[k], review, now)
            && plan[k].memoryId in next && next[plan[k].memoryId] == out.value[k])
    decreases |plan|
  {
    if plan != [] {
      var r, later := Decided(plan[0], Deprecated, review.(previousStatus := plan[0].status)), plan[1..];
      var t1 := Upserted(t, r, now);
      DeprecateFirst(t, plan, reviewer, note, source, review, now);
      PlannedNext(t, plan, r, now);
      DeprecateAllExact(t1, later, reviewer, note, source, review, now);
      DeprecateAllSparesOthers(t1, later, reviewer, note, source, now, r.memoryId);
      assert t1.Keys == t.Keys by { assert plan[0] in plan; }
      assert forall k :: 0 < k < |plan| ==> plan[k] == later[k - 1];
    }
  }

  lemma DeprecateFirst(t: Table, plan: seq<Record>, reviewer: string, note: string, source: string, review: Review, now: int)
    requires BuildReview(Deprecate, reviewer, note, Active, source, now) == Ok(review) && plan != []
    ensures var r := Decided(plan[0], Deprecated, review.(previousStatus := plan[0].status));
      var rest := DeprecateAll(Upserted(t, r, now), plan[1..], reviewer, note, source, now);
      rest.1.Ok? ==>
        DeprecateAll(t, plan, reviewer, note, source, now) == (rest.0, Ok([Retired(plan[0], review, now)] + rest.1.value))
  {
  }

  /** Retiring the plan retires every kept record of the owner and nothing else. */
  lemma PlanIsRetired(t: Table, ownerId: string, reviewer: string, note: string, source: string, review: Review, now: int)
    requires Keyed(t) && BuildReview(Deprecate, reviewer, note, Active, source, now) == Ok(review)
    ensures DeprecateOwner(t, ownerId, reviewer, note, source, now).0 == OwnerRetired(t, ownerId, review, now)
  {
    var plan := Plan(t, ownerId);
    ListsMembers(t, OwnedAndKept(ownerId), plan);
    DeprecateAllExact(t, plan, reviewer, note, source, review, now);
    var next := DeprecateOwner(t, ownerId, reviewer, note, source, now).0;
    forall id | id in t ensures next[id] == if OwnedAndKept(ownerId)(t[id]) then Retired(t[id], review, now) else t[id] {
      if OwnedAndKept(ownerId)(t[id]) {
        PlannedAt(t, ownerId, next, review, now, id);
      } else {
        NotPlanned(t, ownerId, id);
        DeprecateAllSparesOthers(t, plan, reviewer, note, source, now, id);
      }
    }
  }

  lemma PlannedAt(t: Table, ownerId: string, next: Table, review: Review, now: int, id: string)
    requires Keyed(t) && id in t && OwnedAndKept(ownerId)(t[id])
    requires var plan := Plan(t, ownerId);
      forall k :: 0 <= k < |plan| ==>
        plan[k].memoryId in next && next[plan[k].memoryId] == Retired(plan[k], review, now)
    ensures id in next && next[id] == Retired(t[id], review, now)
  {
    var plan := Plan(t, ownerId);
    ListsMembers(t, OwnedAndKept(ownerId), plan);
    assert t[id] in plan;
    var k :| 0 <= k < |plan| && plan[k] == t[id];
    assert next[plan[k].memoryId] == Retired(plan[k], review, now);
  }

  lemma NotPlanned(t: Table, ownerId: string, id: string)
    requires Keyed(t) && id in t && !OwnedAndKept(ownerId)(t[id])
    ensures !InPlan(Plan(t, ownerId), id)
  {
    var plan := Plan(t, ownerId);
    ListsMembers(t, OwnedAndKept(ownerId), plan);
    forall k | 0 <= k < |plan| ensures plan[k].memoryId != id {
      assert plan[k] in plan;
    }
  }

  /** With review texts that are not blank, deprecation retires exactly the
      records of the preview, returns them in its order, and leaves nothing to
      retire; a second call changes nothing. */
  lemma DeprecationFollowsPlan(t: Table, ownerId: string, reviewer: string, note: string, source: string, now: int)
    requires Keyed(t)
    requires !Blank(reviewer) && !Blank(note) && !Blank(source)
    ensures var plan := Plan(t, ownerId);
      var (next, out) := DeprecateOwner(t, ownerId, reviewer, note, source, now);
      && next == OwnerRetired(t, ownerId, BuildReview(Deprecate, reviewer, note, Active, source, now).value, now)
      && out.Ok? && |out.value| == |plan|
      && (forall k :: 0 <= k < |plan| ==> out.value[k].memoryId == plan[k].memoryId && out.value[k].status == Deprecated)
      && Keyed(next) && Plan(next, ownerId) == []
      && DeprecateOwner(next, ownerId, reviewer, note, source, now) == (next, Ok([]))
  {
    var plan := Plan(t, ownerId);
    var review := BuildReview(Deprecate, reviewer, note, Active, source, now).value;
    PlanIsRetired(t, ownerId, reviewer, note, source, review, now);
    ListsMembers(t, OwnedAndKept(ownerId), plan);
    DeprecateAllExact(t, plan, reviewer, note, source, review, now);
    NothingPlanned(OwnerRetired(t, ownerId, review, now), ownerId);
  }

  lemma NothingPlanned(t: Table, ownerId: string)
    requires Keyed(t) && forall id :: id in t ==> !OwnedAndKept(ownerId)(t[id])
    ensures Plan(t, ownerId) == []
  {
    assert Lists(t, OwnedAndKept(ownerId), []);
    ListsUnique(t, OwnedAndKept(ownerId), Plan(t, ownerId), []);
  }

  /** A blank review text stops deprecation before the first record, so it is all
      or nothing. */
  lemma BlankReviewRetiresNothing(t: Table, ownerId: string, reviewer: string, note: string, source: string, now: int)
    requires Keyed(t)
    requires Blank(reviewer) || Blank(note) || Blank(source)
    ensures DeprecateOwner(t, ownerId, reviewer, note, source, now).0 == t
    ensures DeprecateOwner(t, ownerId, reviewer, note, source, now).1.Ok? <==> Plan(t, ownerId) == []
  {
  }
}
