/** When an operator's decision is carried out and what it writes, said with the
    fields of the record, and what a legal lifecycle log is. */
module LifecycleRules {
  import opened Wrappers
  import opened PyText
  import opened MemoryModels
  import opened MemoryStore
  import opened MemoryReview
  import opened MemoryLifecycle

  // ---------- reviews ----------

  /** Reviewer, note and source are not blank. */
  ghost predicate Signed(reviewer: string, note: string, source: string) {
    Strip(reviewer) != "" && Strip(note) != "" && Strip(source) != ""
  }

  /** The review of a decision made on a record now. */
  ghost predicate ReviewOf(review: Option<Review>, decision: Decision, reviewer: string, note: string, source: string,
                           r: Record, now: int) {
    && review.Some? && review.value.decision == decision && review.value.reviewerId == Strip(reviewer)
    && review.value.decisionNote == Strip(note) && review.value.decisionSource == Strip(source)
    && review.value.previousStatus == r.status && review.value.reviewedAt == now
  }

  lemma ReviewExact(decision: Decision, reviewer: string, note: string, source: string, r: Record, now: int)
    ensures var made := BuildReview(decision, reviewer, note, r.status, source, now);
      && (made.Ok? <==> Signed(reviewer, note, source))
      && (made.Ok? ==> ReviewOf(Some(made.value), decision, reviewer, note, source, r, now))
  {
  }

  // ---------- candidates ----------

  /** A candidate's review: the status and the review change, the deadline goes. */
  ghost predicate Reviewed(r: Record, next: Record, status: Status, now: int) {
    next == r.(status := status, review := next.review, candidateReviewDeadline := None, updatedAt := now)
  }

  /** Approval succeeds exactly for a signed decision on a candidate that is no
      session summary, and makes it active. */
  lemma ApprovalExact(t: Table, id: string, reviewer: string, note: string, source: string, now: int)
    requires Keyed(t)
    ensures var out := ApproveCandidate(t, id, reviewer, note, source, now);
      && (out.Ok? <==> id in t && t[id].status == Candidate && !t[id].payload.CandidateSummary?
                       && Signed(reviewer, note, source))
      && (out.Ok? ==>
            && id in out.value && out.value == t[id := out.value[id]] && Reviewed(t[id], out.value[id], Active, now)
            && ReviewOf(out.value[id].review, Approve, reviewer, note, source, t[id], now))
  {
    if id in t {
      ReviewExact(Approve, reviewer, note, source, t[id], now);
    }
  }

  /** Rejection succeeds exactly for a signed decision on a candidate or a conflict,
      and deprecates it. */
  lemma RejectionExact(t: Table, id: string, reviewer: string, note: string, source: string, now: int)
    requires Keyed(t)
    ensures var out := RejectCandidate(t, id, reviewer, note, source, now);
      && (out.Ok? <==> id in t && t[id].status in {Candidate, Conflict} && Signed(reviewer, note, source))
      && (out.Ok? ==>
            && id in out.value && out.value == t[id := out.value[id]] && Reviewed(t[id], out.value[id], Deprecated, now)
            && ReviewOf(out.value[id].review, Reject, reviewer, note, source, t[id], now))
  {
    if id in t {
      ReviewExact(Reject, reviewer, note, source, t[id], now);
    }
  }

  /** Deprecating an owner changes exactly the owner's records that are not yet
      deprecated, each under a review of its own status. */
  lemma OwnerDeprecationExact(t: Table, ownerId: string, reviewer: string, note: string, source: string, now: int)
    requires Keyed(t) && Signed(reviewer, note, source)
    ensures var next := DeprecateOwner(t, ownerId, reviewer, note, source, now).0;
      && next.Keys == t.Keys
      && forall id :: id in t ==>
           if t[id].ownerId == ownerId && t[id].status != Deprecated then
             && Reviewed(t[id], next[id], Deprecated, now)
             && ReviewOf(next[id].review, Deprecate, reviewer, note, source, t[id], now)
           else next[id] == t[id]
  {
    DeprecationFollowsPlan(t, ownerId, reviewer, note, source, now);
  }

  // ---------- stale suspects ----------

  /** Only status, review, evidence and time stamp change; of the evidence some keys
      are written and one event is appended. */
  ghost predicate Moved(r: Record, next: Record, status: Status, written: map<string, string>,
                        details: map<string, string>, now: int) {
    var fields, log := next.evidence.fields, next.evidence.lifecycleEvents;
    && next == r.(status := status, review := next.review, evidence := next.evidence, updatedAt := now)
    && next.evidence.conflictsWith == r.evidence.conflictsWith
    && fields.Keys == r.evidence.fields.Keys + written.Keys
    && (forall k :: k in written ==> fields[k] == written[k])
    && (forall k :: k in r.evidence.fields && k !in written ==> fields[k] == r.evidence.fields[k])
    && log == r.evidence.lifecycleEvents + [Transition(r.status, status, "operator-review", now, details)]
  }

  /** Restoring succeeds exactly for a signed decision on a stale suspect. */
  lemma RestorationExact(t: Table, id: string, reviewer: string, note: string, source: string, now: int)
    requires Keyed(t)
    ensures var out := RestoreActive(t, id, reviewer, note, source, now);
      && (out.Ok? <==> id in t && t[id].status == StaleSuspect && Signed(reviewer, note, source))
      && (out.Ok? ==>
            && id in out.value && out.value == t[id := out.value[id]]
            && Moved(t[id], out.value[id], Active,
                     map["review_reverted" := "true", "review_reverted_from" := "stale_suspect"],
                     map["reviewer_id" := reviewer, "decision_note" := note, "decision_source" := source], now)
            && ReviewOf(out.value[id].review, Approve, reviewer, note, source, t[id], now))
  {
    if id in t {
      ReviewExact(Approve, reviewer, note, source, t[id], now);
    }
  }

  /** Superseding succeeds exactly for a signed decision on an active record or a
      stale suspect with a successor that is not blank. */
  lemma SupersedingExact(t: Table, id: string, successor: string, reviewer: string, note: string, source: string, now: int)
    requires Keyed(t)
    ensures var out := MarkSuperseded(t, id, successor, reviewer, note, source, now);
      && (out.Ok? <==> id in t && t[id].status in {Active, StaleSuspect} && Strip(successor) != ""
                       && Signed(reviewer, note, source))
      && (out.Ok? ==>
            && id in out.value && out.value == t[id := out.value[id]]
            && Moved(t[id], out.value[id], Superseded,
                     map["superseded_by" := Strip(successor), "review_superseded" := "true"],
                     map["reviewer_id" := reviewer, "decision_note" := note, "decision_source" := source,
                         "superseded_by" := Strip(successor)], now)
            && ReviewOf(out.value[id].review, Supersede, reviewer, note, source, t[id], now))
  {
    if id in t {
      ReviewExact(Supersede, reviewer, note, source, t[id], now);
    }
  }

  // ---------- lifecycle logs ----------

  /** The moves a log may record. */
  const MOVES: set<(Status, Status)> :=
    {(Active, StaleSuspect), (StaleSuspect, Active), (Active, Superseded), (StaleSuspect, Superseded)}

  /** The log leads from active to the status: each event is a legal move and starts
      where the one before it ended. */
  ghost predicate LeadsTo(log: seq<Transition>, status: Status) {
    && (forall k :: 0 <= k < |log| ==> (log[k].from, log[k].to) in MOVES)
    && (forall k :: 0 < k < |log| ==> log[k].from == log[k - 1].to)
    && (if log == [] then status == Active else log[0].from == Active && log[|log| - 1].to == status)
  }

  lemma {:induction false} ReplayExact(log: seq<Transition>, status: Status)
    ensures Replay(log) == Some(status) <==> LeadsTo(log, status)
  {
    if log != [] {
      var front, last := log[..|log| - 1], log[|log| - 1];
      ReplayExact(front, last.from);
      assert LegalTransition(last.from, last.to) <==> (last.from, last.to) in MOVES;
      assert LeadsTo(log, last.to) <==> LeadsTo(front, last.from) && (last.from, last.to) in MOVES by {
        assert forall k :: 0 <= k < |front| ==> front[k] == log[k];
      }
    }
  }
}
