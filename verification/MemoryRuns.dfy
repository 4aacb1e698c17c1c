/** Runs of the reviewed-memory state machine: every public operation is a step
    on one table, in any order and at any times. */
module MemoryRuns {
  import opened Wrappers
  import opened PyText
  import TotalOrders
  import opened MemoryModels
  import opened MemoryStore
  import opened MemoryCandidates
  import opened ConflictDetector
  import opened MemoryLifecycle
  import opened MemoryReview
  import opened MemoryAggregator
  import LifecycleRules

  datatype World = World(rules: Rules, cfg: Config)

  datatype Step =
    | Intake(record: Record)
    | StoreAtom(atom: Atom)
    | AggregateIds(ownerId: string, ids: seq<string>)
    | ConflictsFor(fresh_atom: Atom)
    | MarkOne(id: string, conflicting: Atom, verdict: Verdict, why: string)
    | RestoreOne(id: string, reviewer: string, note: string, source: string)
    | SupersedeOne(id: string, successor: string, reviewer: string, note: string, source: string)
    | ApproveOne(id: string, reviewer: string, note: string, source: string)
    | RejectOne(id: string, reviewer: string, note: string, source: string)
    | DeprecateAllOf(ownerId: string, reviewer: string, note: string, source: string)
    | Access(id: string)

  /** The record an extracted atom is stored as, under the atom's own id. */
  function AtomRecord(atom: Atom): Record {
    Record(
      atom.atomId, atom.ownerId, "memory://oncall/l1-atoms", L1(atom), atom.claim,
      "l0-evidence-schema-extractor, NOT reviewed active memory",
      Evidence(map["evidence_type" := "l1_atom_candidate", "l0_evidence_id" := atom.evidenceId], [], []),
      Candidate, None, None, 0, None, 0)
  }

  function TableOr(r: Result<Table>, t: Table): Table {
    if r.Ok? then r.value else t
  }

  /** Marking one record, and the operators' decisions on one. */
  predicate OnOne(step: Step) {
    step.MarkOne? || step.RestoreOne? || step.SupersedeOne? || step.ApproveOne? || step.RejectOne?
  }

  function Handled(t: Table, step: Step, now: int): Result<Table>
    requires OnOne(step)
  {
    match step
    case MarkOne(id, atom, verdict, why) => MarkStale(t, id, atom, verdict, why, now)
    case RestoreOne(id, reviewer, note, source) => RestoreActive(t, id, reviewer, note, source, now)
    case SupersedeOne(id, successor, reviewer, note, source) =>
      MarkSuperseded(t, id, successor, reviewer, note, source, now)
    case ApproveOne(id, reviewer, note, source) => ApproveCandidate(t, id, reviewer, note, source, now)
    case RejectOne(id, reviewer, note, source) => RejectCandidate(t, id, reviewer, note, source, now)
  }

  /** One step; an operation that raises leaves what it has already written. */
  ghost function Next(w: World, t: Table, step: Step, now: int): Table
    requires Keyed(t)
  {
    match step
    case Intake(record) => Taken(w.cfg.env, t, record, now)
    case StoreAtom(atom) => Upserted(t, AtomRecord(atom), now)
    case AggregateIds(owner, ids) => Aggregate(w.cfg, t, owner, ids, now).0
    case ConflictsFor(atom) => ApplyConflicts(w.rules, t, atom, now).0
    case DeprecateAllOf(owner, reviewer, note, source) => DeprecateOwner(t, owner, reviewer, note, source, now).0
    case Access(id) => Accessed(t, id, now)
    case _ => TableOr(Handled(t, step, now), t)
  }

  // ---------- the invariant ----------

  ghost predicate Sound(r: Record) {
    LogExplains(r) && ReviewJustifies(r)
  }

  /** Rows are keyed by their id, every record's log explains its status and its
      review justifies it, and live duplicate keys are distinct. */
  ghost predicate Invariant(env: Env, t: Table) {
    && Keyed(t)
    && (forall id :: id in t ==> Sound(t[id]))
    && NoLiveDuplicates(env, t)
  }

  /** What intake asks of its caller: a record whose evidence carries no lifecycle
      log, as all builders make. */
  predicate CleanIntake(step: Step) {
    step.Intake? ==> step.record.evidence.lifecycleEvents == []
  }

  /** A write of a sound record with a key no other live record has. */
  lemma WriteKeeps(env: Env, t: Table, r: Record, now: int)
    requires Invariant(env, t) && Sound(r)
    requires NoLiveDuplicates(env, Upserted(t, r, now))
    ensures Invariant(env, Upserted(t, r, now))
  {
  }

  /** Rewriting a record in place: same owner, payload and session, and not
      brought back to life. */
  lemma RewriteKeeps(env: Env, t: Table, id: string, r: Record, now: int)
    requires Invariant(env, t) && id in t && Sound(r)
    requires r.memoryId == id && r.ownerId == t[id].ownerId && r.payload == t[id].payload
    requires SameSession(r.evidence, t[id].evidence)
    requires Live(r) ==> Live(t[id])
    ensures Invariant(env, Upserted(t, r, now))
  {
    assert DedupKey(env, r) == DedupKey(env, t[id]);
    WriteKeepsDistinct(env, t, r, now);
    WriteKeeps(env, t, r, now);
  }

  predicate SameSession(a: Evidence, b: Evidence) {
    && ("session_id" in a.fields <==> "session_id" in b.fields)
    && ("session_id" in a.fields ==> a.fields["session_id"] == b.fields["session_id"])
  }

  lemma MergeKeepsSession(e: Evidence, updates: map<string, string>, event: Transition)
    requires "session_id" !in updates
    ensures SameSession(MergeEvidence(e, updates, event), e)
  {
  }

  /** A lifecycle transition appends one legal event. */
  lemma StaledIsSound(r: Record, atom: Atom, verdict: Verdict, why: string, now: int)
    requires Sound(r) && r.status == Active
    ensures Sound(Staled(r, atom, verdict, why, now))
    ensures SameSession(Staled(r, atom, verdict, why, now).evidence, r.evidence)
  {
    var details := ConflictDetails(atom, verdict, why);
    ReplayAppend(r.evidence.lifecycleEvents, Transition(Active, StaleSuspect, CONFLICT_TRIGGER, now, details));
    assert "session_id" !in details["review_required" := "true"];
  }

  lemma RestoredIsSound(r: Record, review: Review, details: map<string, string>, now: int)
    requires Sound(r) && r.status == StaleSuspect
    requires review.decision == Approve && GoodReview(review)
    ensures Sound(Restored(r, review, details, now)) && SameSession(Restored(r, review, details, now).evidence, r.evidence)
  {
    ReplayAppend(r.evidence.lifecycleEvents, Transition(StaleSuspect, Active, REVIEW_TRIGGER, now, details));
  }

  lemma SupersededIsSound(r: Record, successor: string, review: Review, details: map<string, string>, now: int)
    requires Sound(r) && (r.status == Active || r.status == StaleSuspect)
    requires review.decision == Supersede && GoodReview(review)
    ensures Sound(SupersededBy(r, successor, review, details, now))
    ensures SameSession(SupersededBy(r, successor, review, details, now).evidence, r.evidence)
  {
    var event := Transition(r.status, Superseded, REVIEW_TRIGGER, now, details["superseded_by" := successor]);
    var updates := map["superseded_by" := successor, "review_superseded" := "true"];
    ReplayAppend(r.evidence.lifecycleEvents, event);
    MergeKeepsSession(r.evidence, updates, event);
    assert SupersededBy(r, successor, review, details, now).evidence == MergeEvidence(r.evidence, updates, event);
  }

  lemma MarkKeeps(env: Env, t: Table, id: string, atom: Atom, verdict: Verdict, why: string, now: int)
    requires Invariant(env, t)
    ensures Invariant(env, TableOr(MarkStale(t, id, atom, verdict, why, now), t))
  {
    if MarkStale(t, id, atom, verdict, why, now).Ok? {
      StaledIsSound(t[id], atom, verdict, why, now);
      RewriteKeeps(env, t, id, Staled(t[id], atom, verdict, why, now), now);
    }
  }

  lemma {:induction false} MarkAllKeeps(env: Env, t: Table, fs: seq<Finding>, atom: Atom, now: int)
    requires Invariant(env, t)
    ensures Invariant(env, MarkAll(t, fs, atom, now).0)
    decreases |fs|
  {
    if fs != [] {
      MarkKeeps(env, t, fs[0].memoryId, atom, fs[0].verdict, fs[0].reason, now);
      var next := MarkStale(t, fs[0].memoryId, atom, fs[0].verdict, fs[0].reason, now);
      if next.Ok? {
        MarkAllKeeps(env, next.value, fs[1..], atom, now);
      }
    }
  }

  lemma RetiredIsSound(r: Record, review: Review)
    requires Sound(r) && r.status != Deprecated
    requires review.decision == Deprecate || review.decision == Reject
    requires GoodReview(review) && review.previousStatus == r.status
    ensures Sound(Decided(r, Deprecated, review))
  {
  }

  lemma {:induction false} DeprecateAllKeeps(env: Env, t: Table, plan: seq<Record>, reviewer: string, note: string,
                                             source: string, now: int)
    requires Invariant(env, t)
    requires forall r :: r in plan ==> r.memoryId in t && t[r.memoryId] == r && r.status != Deprecated
    requires forall j, k :: 0 <= j < k < |plan| ==> plan[j].memoryId != plan[k].memoryId
    ensures Invariant(env, DeprecateAll(t, plan, reviewer, note, source, now).0)
    decreases |plan|
  {
    if plan != [] {
      var review := BuildReview(Deprecate, reviewer, note, plan[0].status, source, now);
      if review.Ok? {
        assert plan[0] in plan;
        var r := Decided(plan[0], Deprecated, review.value);
        RetiredIsSound(plan[0], review.value);
        RewriteKeeps(env, t, r.memoryId, r, now);
        var t1 := Upserted(t, r, now);
        forall x | x in plan[1..] ensures x.memoryId in t1 && t1[x.memoryId] == x && x.status != Deprecated {
          assert x in plan;
        }
        DeprecateAllKeeps(env, t1, plan[1..], reviewer, note, source, now);
      }
    }
  }

  /** Intake writes nothing or one candidate or conflict without a log. */
  lemma IntakeIsSound(env: Env, t: Table, record: Record, now: int) returns (r: Record)
    requires Keyed(t) && record.evidence.lifecycleEvents == [] && StoreCandidate(env, t, record, now).Ok?
    ensures Sound(r)
    ensures var next := StoreCandidate(env, t, record, now).value.table; next == t || next == Upserted(t, r, now)
  {
    var rows := Listing(t, Rivals(record));
    var conflicts := ConflictIds(env, rows, record.(status := Candidate), now);
    r := if conflicts == [] then record.(status := Candidate)
         else record.(status := Conflict, evidence := record.evidence.(conflictsWith := conflicts));
  }

  lemma IntakeKeeps(env: Env, t: Table, record: Record, now: int)
    requires Invariant(env, t) && record.evidence.lifecycleEvents == []
    requires StoreCandidate(env, t, record, now).Ok?
    ensures Invariant(env, StoreCandidate(env, t, record, now).value.table)
  {
    StoreCandidateKeepsDistinct(env, t, record, now);
    var r := IntakeIsSound(env, t, record, now);
    var next := StoreCandidate(env, t, record, now).value.table;
    if next != t {
      WriteKeeps(env, t, r, now);
    }
  }

  lemma AtomKeeps(env: Env, t: Table, atom: Atom, now: int)
    requires Invariant(env, t)
    ensures Invariant(env, Upserted(t, AtomRecord(atom), now))
  {
    WriteKeepsDistinct(env, t, AtomRecord(atom), now);
    WriteKeeps(env, t, AtomRecord(atom), now);
  }

  lemma AggregateKeeps(cfg: Config, t: Table, ownerId: string, ids: seq<string>, now: int)
    requires Invariant(cfg.env, t)
    ensures Invariant(cfg.env, Aggregate(cfg, t, ownerId, ids, now).0)
  {
    var made := ScenarioFor(cfg, t, ownerId, ids);
    if made.Some? {
      AddKeeps(cfg.env, t, made.value, now);
    }
  }

  ghost predicate FreshScenario(r: Record) {
    r.payload.L2? && r.status == Candidate && r.evidence.lifecycleEvents == []
  }

  lemma AddKeeps(env: Env, t: Table, made: Record, now: int)
    requires Invariant(env, t) && FreshScenario(made)
    ensures Invariant(env, AddUnlessDuplicate(env, t, made, now).0)
  {
    var rows := Listing(t, Rivals(made));
    if FirstDuplicate(env, rows, made) == None {
      NewKeyIsDistinct(env, t, made, rows);
      WriteKeepsDistinct(env, t, made, now);
      WriteKeeps(env, t, made, now);
    }
  }

  lemma RestoreKeeps(env: Env, t: Table, id: string, reviewer: string, note: string, source: string, now: int)
    requires Invariant(env, t)
    ensures Invariant(env, TableOr(RestoreActive(t, id, reviewer, note, source, now), t))
  {
    if RestoreActive(t, id, reviewer, note, source, now).Ok? {
      var review := BuildReview(Approve, reviewer, note, t[id].status, source, now).value;
      var details := DecisionDetails(reviewer, note, source);
      RestoredIsSound(t[id], review, details, now);
      RewriteKeeps(env, t, id, Restored(t[id], review, details, now), now);
    }
  }

  lemma SupersedeKeeps(env: Env, t: Table, id: string, successor: string, reviewer: string, note: string, source: string,
                       now: int)
    requires Invariant(env, t)
    ensures Invariant(env, TableOr(MarkSuperseded(t, id, successor, reviewer, note, source, now), t))
  {
    if MarkSuperseded(t, id, successor, reviewer, note, source, now).Ok? {
      var review := BuildReview(Supersede, reviewer, note, t[id].status, source, now).value;
      var details := DecisionDetails(reviewer, note, source);
      SupersededIsSound(t[id], Strip(successor), review, details, now);
      RewriteKeeps(env, t, id, SupersededBy(t[id], Strip(successor), review, details, now), now);
    }
  }

  lemma ApproveKeeps(env: Env, t: Table, id: string, reviewer: string, note: string, source: string, now: int)
    requires Invariant(env, t)
    ensures Invariant(env, TableOr(ApproveCandidate(t, id, reviewer, note, source, now), t))
  {
    if ApproveCandidate(t, id, reviewer, note, source, now).Ok? {
      var review := BuildReview(Approve, reviewer, note, t[id].status, source, now).value;
      RewriteKeeps(env, t, id, Decided(t[id], Active, review), now);
    }
  }

  lemma RejectKeeps(env: Env, t: Table, id: string, reviewer: string, note: string, source: string, now: int)
    requires Invariant(env, t)
    ensures Invariant(env, TableOr(RejectCandidate(t, id, reviewer, note, source, now), t))
  {
    if RejectCandidate(t, id, reviewer, note, source, now).Ok? {
      var review := BuildReview(Reject, reviewer, note, t[id].status, source, now).value;
      RetiredIsSound(t[id], review);
      RewriteKeeps(env, t, id, Decided(t[id], Deprecated, review), now);
    }
  }

  lemma AccessKeeps(env: Env, t: Table, id: string, now: int)
    requires Invariant(env, t)
    ensures Invariant(env, Accessed(t, id, now))
  {
    if id in t {
      var r := t[id].(lastAccessedAt := Some(now), accessCount := t[id].accessCount + 1);
      RewriteKeeps(env, t, id, r, r.updatedAt);
      assert Accessed(t, id, now) == Upserted(t, r, r.updatedAt);
    }
  }

  lemma HandledKeeps(env: Env, t: Table, step: Step, now: int)
    requires Invariant(env, t) && OnOne(step)
    ensures Invariant(env, TableOr(Handled(t, step, now), t))
  {
    match step {
      case MarkOne(id, atom, verdict, why) => MarkKeeps(env, t, id, atom, verdict, why, now);
      case RestoreOne(id, reviewer, note, source) => RestoreKeeps(env, t, id, reviewer, note, source, now);
      case SupersedeOne(id, successor, reviewer, note, source) =>
        SupersedeKeeps(env, t, id, successor, reviewer, note, source, now);
      case ApproveOne(id, reviewer, note, source) => ApproveKeeps(env, t, id, reviewer, note, source, now);
      case RejectOne(id, reviewer, note, source) => RejectKeeps(env, t, id, reviewer, note, source, now);
    }
  }

  lemma DeprecationKeeps(env: Env, t: Table, owner: string, reviewer: string, note: string, source: string, now: int)
    requires Invariant(env, t)
    ensures Invariant(env, DeprecateOwner(t, owner, reviewer, note, source, now).0)
  {
    ListsMembers(t, OwnedAndKept(owner), Plan(t, owner));
    DeprecateAllKeeps(env, t, Plan(t, owner), reviewer, note, source, now);
  }

  lemma ConflictsKeep(w: World, t: Table, atom: Atom, now: int)
    requires Invariant(w.cfg.env, t)
    ensures Invariant(w.cfg.env, ApplyConflicts(w.rules, t, atom, now).0)
  {
    MarkAllKeeps(w.cfg.env, t, Detected(w.rules, t, atom, now), atom, now);
  }

  lemma TakenKeeps(env: Env, t: Table, record: Record, now: int)
    requires Invariant(env, t) && record.evidence.lifecycleEvents == []
    ensures Invariant(env, Taken(env, t, record, now))
  {
    if StoreCandidate(env, t, record, now).Ok? {
      IntakeKeeps(env, t, record, now);
    }
  }

  /** Every step keeps the invariant. */
  lemma StepKeepsInvariant(w: World, t: Table, step: Step, now: int)
    requires Invariant(w.cfg.env, t) && CleanIntake(step)
    ensures Invariant(w.cfg.env, Next(w, t, step, now))
  {
    var env := w.cfg.env;
    match step {
      case Intake(record) => TakenKeeps(env, t, record, now);
      case StoreAtom(atom) => AtomKeeps(env, t, atom, now);
      case AggregateIds(owner, ids) => AggregateKeeps(w.cfg, t, owner, ids, now);
      case ConflictsFor(atom) => ConflictsKeep(w, t, atom, now);
      case DeprecateAllOf(owner, reviewer, note, source) => DeprecationKeeps(env, t, owner, reviewer, note, source, now);
      case Access(id) => AccessKeeps(env, t, id, now);
      case _ => HandledKeeps(env, t, step, now);
    }
  }

  // ---------- runs ----------

  /** The table after a run from the empty store.  In every reachable store each
      record's lifecycle log is a legal path from active: it leads to the status of
      an active, stale or superseded record and to the previous status of a
      deprecated one that was once active; candidates and conflicts have an empty
      log.  Active and stale records carry an approving review and are no
      summaries; superseded and deprecated ones carry the review that retired
      them.  Live records of one owner and type have distinct duplicate keys. */
  ghost function Run(w: World, steps: seq<(Step, int)>): (t: Table)
    requires forall k :: 0 <= k < |steps| ==> CleanIntake(steps[k].0)
    ensures Invariant(w.cfg.env, t)
  {
    if steps == [] then map[]
    else
      var before := Run(w, steps[..|steps| - 1]);
      var (step, now) := steps[|steps| - 1];
      StepKeepsInvariant(w, before, step, now);
      Next(w, before, step, now)
  }

  /** The condition on intake is exact: storing a candidate keeps the logs
      explained if and only if it writes nothing or the record has no log. */
  lemma IntakeNeedsNoLog(env: Env, t: Table, record: Record, now: int)
    requires Invariant(env, t) && StoreCandidate(env, t, record, now).Ok?
    ensures Invariant(env, StoreCandidate(env, t, record, now).value.table) <==>
      StoreCandidate(env, t, record, now).value.action == Duplicate || record.evidence.lifecycleEvents == []
  {
    var out := StoreCandidate(env, t, record, now).value;
    if out.action != Duplicate {
      assert out.table[record.memoryId].evidence.lifecycleEvents == record.evidence.lifecycleEvents;
      if record.evidence.lifecycleEvents == [] {
        IntakeKeeps(env, t, record, now);
      }
    }
  }

  // ---------- when a deprecated record comes back ----------

  /** The steps that write over the deprecated record at `id`: intake of a record
      under that id that is written, an extracted atom under that id, and the
      aggregation of a scenario under that id that no rival duplicates. */
  ghost predicate Revives(w: World, t: Table, step: Step, now: int, id: string) {
    match step
    case Intake(record) => record.memoryId == id && IntakeWrites(w.cfg.env, t, record, now)
    case StoreAtom(atom) => atom.atomId == id
    case AggregateIds(owner, ids) =>
      var made := ScenarioFor(w.cfg, t, owner, ids);
      made.Some? && made.value.memoryId == id && forall x :: !DuplicateAt(w.cfg.env, t, made.value, x)
    case _ => false
  }

  /** A deprecated record stays deprecated exactly when the step is none of these. */
  lemma DeprecatedStaysExactly(w: World, t: Table, step: Step, now: int, id: string)
    requires Keyed(t) && id in t && t[id].status == Deprecated
    ensures id in Next(w, t, step, now)
    ensures Next(w, t, step, now)[id].status != Deprecated <==> Revives(w, t, step, now, id)
  {
    match step {
      case Intake(record) => IntakeRevives(w.cfg.env, t, record, now, id);
      case StoreAtom(atom) => AtomRevives(t, atom, now, id);
      case AggregateIds(owner, ids) => AggregateRevives(w.cfg, t, owner, ids, now, id);
      case _ => OthersSpare(w, t, step, now, id);
    }
  }

  lemma OthersSpare(w: World, t: Table, step: Step, now: int, id: string)
    requires Keyed(t) && id in t && t[id].status == Deprecated
    requires !step.Intake? && !step.StoreAtom? && !step.AggregateIds?
    ensures id in Next(w, t, step, now) && Next(w, t, step, now)[id].status == Deprecated
  {
    match step {
      case ConflictsFor(atom) => ConflictsSpare(w.rules, t, atom, now, id);
      case DeprecateAllOf(owner, reviewer, note, source) =>
        DeprecationSpares(t, owner, reviewer, note, source, now, id);
      case Access(_) =>
      case _ => HandledWritesOne(t, step, now);
    }
  }

  lemma IntakeRevives(env: Env, t: Table, record: Record, now: int, id: string)
    requires Keyed(t) && id in t && t[id].status == Deprecated
    ensures var next := Taken(env, t, record, now);
      id in next && (next[id].status != Deprecated <==> record.memoryId == id && IntakeWrites(env, t, record, now))
  {
    IntakeWritesExactly(env, t, record, now);
  }

  lemma AtomRevives(t: Table, atom: Atom, now: int, id: string)
    requires Keyed(t) && id in t && t[id].status == Deprecated
    ensures var next := Upserted(t, AtomRecord(atom), now);
      id in next && (next[id].status != Deprecated <==> atom.atomId == id)
  {
  }

  lemma ConflictsSpare(rules: Rules, t: Table, atom: Atom, now: int, id: string)
    requires Keyed(t) && id in t && t[id].status == Deprecated
    ensures var next := ApplyConflicts(rules, t, atom, now).0;
      id in next && next[id] == t[id]
  {
    MarkAllSpares(t, Detected(rules, t, atom, now), atom, now, id);
  }

  lemma DeprecationSpares(t: Table, owner: string, reviewer: string, note: string, source: string, now: int, id: string)
    requires Keyed(t) && id in t && t[id].status == Deprecated
    ensures var next := DeprecateOwner(t, owner, reviewer, note, source, now).0;
      id in next && next[id].status == Deprecated
  {
    DeprecateAllSpares(t, Plan(t, owner), reviewer, note, source, now, id);
  }

  /** An operation writes no row but the one of this id, and not a deprecated one. */
  ghost predicate WritesOne(t: Table, r: Result<Table>, id: string) {
    r.Ok? ==>
      && id in t && t[id].status != Deprecated
      && r.value.Keys == t.Keys
      && forall x :: x in t && x != id ==> r.value[x] == t[x]
  }

  lemma MarkWrites(t: Table, id: string, atom: Atom, verdict: Verdict, why: string, now: int)
    requires Keyed(t)
    ensures WritesOne(t, MarkStale(t, id, atom, verdict, why, now), id)
  {
  }

  lemma RestoreWrites(t: Table, id: string, reviewer: string, note: string, source: string, now: int)
    requires Keyed(t)
    ensures WritesOne(t, RestoreActive(t, id, reviewer, note, source, now), id)
  {
  }

  lemma SupersedeWrites(t: Table, id: string, successor: string, reviewer: string, note: string, source: string, now: int)
    requires Keyed(t)
    ensures WritesOne(t, MarkSuperseded(t, id, successor, reviewer, note, source, now), id)
  {
  }

  lemma ReviewWrites(t: Table, id: string, reviewer: string, note: string, source: string, now: int)
    requires Keyed(t)
    ensures WritesOne(t, ApproveCandidate(t, id, reviewer, note, source, now), id)
    ensures WritesOne(t, RejectCandidate(t, id, reviewer, note, source, now), id)
  {
  }

  /** Marking and the operators' decisions do so. */
  lemma HandledWritesOne(t: Table, step: Step, now: int)
    requires Keyed(t) && OnOne(step)
    ensures WritesOne(t, Handled(t, step, now), step.id)
  {
    match step {
      case MarkOne(id, atom, verdict, why) => MarkWrites(t, id, atom, verdict, why, now);
      case RestoreOne(id, reviewer, note, source) => RestoreWrites(t, id, reviewer, note, source, now);
      case SupersedeOne(id, successor, reviewer, note, source) =>
        SupersedeWrites(t, id, successor, reviewer, note, source, now);
      case ApproveOne(id, reviewer, note, source) => ReviewWrites(t, id, reviewer, note, source, now);
      case RejectOne(id, reviewer, note, source) => ReviewWrites(t, id, reviewer, note, source, now);
    }
  }

  lemma AggregateRevives(cfg: Config, t: Table, ownerId: string, ids: seq<string>, now: int, id: string)
    requires Keyed(t) && id in t && t[id].status == Deprecated
    ensures var next, made := Aggregate(cfg, t, ownerId, ids, now).0, ScenarioFor(cfg, t, ownerId, ids);
      && id in next
      && (next[id].status != Deprecated <==>
            made.Some? && made.value.memoryId == id && forall x :: !DuplicateAt(cfg.env, t, made.value, x))
  {
    var made := ScenarioFor(cfg, t, ownerId, ids);
    if made.Some? {
      AddWritesExactly(cfg.env, t, made.value, now);
    }
  }

  lemma AddWritesExactly(env: Env, t: Table, made: Record, now: int)
    requires Keyed(t)
    ensures AddUnlessDuplicate(env, t, made, now).0
      == if exists x :: DuplicateAt(env, t, made, x) then t else Upserted(t, made, now)
  {
    var rows := Listing(t, Rivals(made));
    RivalRows(t, made);
    NoFirstDuplicate(env, rows, made);
    if x :| DuplicateAt(env, t, made, x) {
      assert t[x] in rows;
    } else {
      forall r | r in rows ensures DedupKey(env, r) != DedupKey(env, made) {
        assert !DuplicateAt(env, t, made, r.memoryId);
      }
    }
  }

  lemma {:induction false} MarkAllSpares(t: Table, fs: seq<Finding>, atom: Atom, now: int, id: string)
    requires Keyed(t) && id in t && t[id].status != Active
    ensures var next := MarkAll(t, fs, atom, now).0;
      id in next && next[id] == t[id]
    decreases |fs|
  {
    if fs != [] {
      var next := MarkStale(t, fs[0].memoryId, atom, fs[0].verdict, fs[0].reason, now);
      if next.Ok? {
        MarkAllSpares(next.value, fs[1..], atom, now, id);
      }
    }
  }

  lemma {:induction false} DeprecateAllSpares(t: Table, plan: seq<Record>, reviewer: string, note: string, source: string,
                                              now: int, id: string)
    requires id in t && t[id].status == Deprecated
    ensures var next := DeprecateAll(t, plan, reviewer, note, source, now).0;
      id in next && next[id].status == Deprecated
    decreases |plan|
  {
    if plan != [] {
      var review := BuildReview(Deprecate, reviewer, note, plan[0].status, source, now);
      if review.Ok? {
        DeprecateAllSpares(Upserted(t, Decided(plan[0], Deprecated, review.value), now), plan[1..], reviewer, note, source,
                           now, id);
      }
    }
  }

  // ---------- conflict application on reachable stores ----------

  /** An id without surrounding blanks that is not blank, as all builders make. */
  predicate GivenId(id: string) {
    Strip(id) == id && id != ""
  }

  ghost predicate GivenIds(t: Table) {
    forall id :: id in t ==> GivenId(id)
  }

  ghost predicate GivenIntake(w: World, step: Step) {
    && (step.Intake? ==> GivenId(step.record.memoryId))
    && (step.StoreAtom? ==> GivenId(step.atom.atomId))
    && (step.AggregateIds? ==> forall key: seq<string> :: GivenId("l2_scenario_" + w.cfg.env.digest(key)))
  }

  lemma {:induction false} MarkAllKeys(t: Table, fs: seq<Finding>, atom: Atom, now: int)
    requires Keyed(t)
    ensures MarkAll(t, fs, atom, now).0.Keys == t.Keys
    decreases |fs|
  {
    if fs != [] {
      var next := MarkStale(t, fs[0].memoryId, atom, fs[0].verdict, fs[0].reason, now);
      if next.Ok? {
        assert next.value.Keys == t.Keys;
        MarkAllKeys(next.value, fs[1..], atom, now);
      }
    }
  }

  lemma {:induction false} DeprecateAllKeys(t: Table, plan: seq<Record>, reviewer: string, note: string, source: string,
                                            now: int)
    requires forall r :: r in plan ==> r.memoryId in t
    ensures DeprecateAll(t, plan, reviewer, note, source, now).0.Keys == t.Keys
    decreases |plan|
  {
    if plan != [] {
      var review := BuildReview(Deprecate, reviewer, note, plan[0].status, source, now);
      if review.Ok? {
        assert plan[0] in plan;
        var t1 := Upserted(t, Decided(plan[0], Deprecated, review.value), now);
        assert t1.Keys == t.Keys;
        DeprecateAllKeys(t1, plan[1..], reviewer, note, source, now);
      }
    }
  }

  lemma StepKeepsGiven(w: World, t: Table, step: Step, now: int)
    requires Keyed(t) && GivenIds(t) && GivenIntake(w, step)
    ensures GivenIds(Next(w, t, step, now))
  {
    match step {
      case Intake(record) => IntakeKeepsGiven(w.cfg.env, t, record, now);
      case StoreAtom(atom) =>
      case AggregateIds(owner, ids) => AggregateKeepsGiven(w.cfg, t, owner, ids, now);
      case ConflictsFor(atom) => MarkAllKeys(t, Detected(w.rules, t, atom, now), atom, now);
      case DeprecateAllOf(owner, reviewer, note, source) =>
        ListsMembers(t, OwnedAndKept(owner), Plan(t, owner));
        DeprecateAllKeys(t, Plan(t, owner), reviewer, note, source, now);
      case Access(_) =>
      case _ => HandledWritesOne(t, step, now);
    }
  }

  lemma IntakeKeepsGiven(env: Env, t: Table, record: Record, now: int)
    requires Keyed(t) && GivenIds(t) && GivenId(record.memoryId)
    ensures GivenIds(Taken(env, t, record, now))
  {
  }

  lemma AggregateKeepsGiven(cfg: Config, t: Table, ownerId: string, ids: seq<string>, now: int)
    requires Keyed(t) && GivenIds(t)
    requires forall key: seq<string> :: GivenId("l2_scenario_" + cfg.env.digest(key))
    ensures GivenIds(Aggregate(cfg, t, ownerId, ids, now).0)
  {
    var made := ScenarioFor(cfg, t, ownerId, ids);
    if made.Some? {
      var key := ScenarioIdKey(cfg, t, ownerId, ids);
    }
  }

  lemma ScenarioIdKey(cfg: Config, t: Table, ownerId: string, ids: seq<string>) returns (key: seq<string>)
    requires ScenarioFor(cfg, t, ownerId, ids).Some?
    ensures ScenarioFor(cfg, t, ownerId, ids).value.memoryId == "l2_scenario_" + cfg.env.digest(key)
  {
    var ordered := SortAtoms(Stable(cfg, Loaded(t, ownerId, ids)));
    var scope := ScopeOf(Stable(cfg, Loaded(t, ownerId, ids))).value;
    key := [ScenarioKeyOf(cfg.env, ownerId, scope)] + TotalOrders.Sort(TotalOrders.StrLe, IdsOf(ordered));
  }

  lemma {:induction false} RunIsGiven(w: World, steps: seq<(Step, int)>)
    requires forall k :: 0 <= k < |steps| ==> CleanIntake(steps[k].0) && GivenIntake(w, steps[k].0)
    ensures GivenIds(Run(w, steps))
  {
    if steps != [] {
      var n := |steps| - 1;
      assert steps[n] in steps;
      RunIsGiven(w, steps[..n]);
      StepKeepsGiven(w, Run(w, steps[..n]), steps[n].0, steps[n].1);
    }
  }

  /** On every reachable store, conflict application succeeds and marks exactly the
      conflicting records if and only if none of the owner's active records has a
      blank id and the conflicting ids are trimmed; this holds when every id was given
      at intake, and then the same atom at any later time changes nothing more. */
  lemma ReachableConflictsApply(w: World, steps: seq<(Step, int)>, atom: Atom, now: int, later: int)
    requires forall k :: 0 <= k < |steps| ==> CleanIntake(steps[k].0)
    requires now <= later
    ensures var t := Run(w, steps);
      var next := AllMarked(w.rules, t, atom, now);
      && (ApplyConflicts(w.rules, t, atom, now) == (next, Done) <==>
            NoBlankIds(t, atom.ownerId) && Trimmed(w.rules, t, atom, now))
      && ((forall k :: 0 <= k < |steps| ==> GivenIntake(w, steps[k].0)) ==>
            && ApplyConflicts(w.rules, t, atom, now) == (next, Done)
            && Keyed(next) && ApplyConflicts(w.rules, next, atom, later) == (next, Done))
  {
    var t := Run(w, steps);
    ApplyMarksExactly(w.rules, t, atom, now);
    if forall k :: 0 <= k < |steps| ==> GivenIntake(w, steps[k].0) {
      RunIsGiven(w, steps);
      forall id | id in t ensures !Blank(id) && Strip(id) == id {
        assert GivenId(id);
      }
      ApplyConflictsAgain(w.rules, t, atom, now, later);
    }
  }

  /** A blank id is reachable: intake and approval of a record without one, and the
      detection raises for every atom of its owner. */
  lemma BlankIdIsReachable(w: World, r: Record, reviewer: string, note: string, source: string, atom: Atom, now: int)
    requires r.memoryId == "" && r.evidence.lifecycleEvents == [] && !r.payload.CandidateSummary?
    requires !Blank(reviewer) && !Blank(note) && !Blank(source)
    requires atom.ownerId == r.ownerId
    ensures var steps := [(Intake(r), 0), (ApproveOne("", reviewer, note, source), 1)];
      && (forall k :: 0 <= k < |steps| ==> CleanIntake(steps[k].0))
      && ApplyConflicts(w.rules, Run(w, steps), atom, now) == (Run(w, steps), DetectionRaised)
  {
    RunOfTwo(w, (Intake(r), 0), (ApproveOne("", reviewer, note, source), 1));
    BlankIdRun(w, r, reviewer, note, source);
    assert Blank("");
    ApplySucceedsExactly(w.rules, Run(w, [(Intake(r), 0), (ApproveOne("", reviewer, note, source), 1)]), atom, now);
  }

  lemma BlankIdRun(w: World, r: Record, reviewer: string, note: string, source: string)
    requires r.memoryId == "" && !r.payload.CandidateSummary?
    requires !Blank(reviewer) && !Blank(note) && !Blank(source)
    requires Keyed(Next(w, map[], Intake(r), 0))
    ensures var t := Next(w, Next(w, map[], Intake(r), 0), ApproveOne("", reviewer, note, source), 1);
      "" in t && t[""].status == Active && t[""].ownerId == r.ownerId
  {
    IntakeAlone(w, r, 0);
    ApprovedIsActive(w, map["" := r.(status := Candidate, updatedAt := 0)], "", reviewer, note, source, 1);
  }

  lemma IntakeAlone(w: World, r: Record, now: int)
    ensures Next(w, map[], Intake(r), now) == map[r.memoryId := r.(status := Candidate, updatedAt := now)]
  {
    StoredAlone(w.cfg.env, r, now);
  }

  lemma ApprovedIsActive(w: World, t: Table, id: string, reviewer: string, note: string, source: string, now: int)
    requires Keyed(t) && id in t && t[id].status == Candidate && !t[id].payload.CandidateSummary?
    requires !Blank(reviewer) && !Blank(note) && !Blank(source)
    ensures var next := Next(w, t, ApproveOne(id, reviewer, note, source), now);
      id in next && next[id].status == Active && next[id].ownerId == t[id].ownerId
  {
  }

  lemma RunOfTwo(w: World, a: (Step, int), b: (Step, int))
    requires CleanIntake(a.0) && CleanIntake(b.0)
    ensures Keyed(Next(w, map[], a.0, a.1))
    ensures Run(w, [a, b]) == Next(w, Next(w, map[], a.0, a.1), b.0, b.1)
  {
    assert [a, b][..1] == [a] && [a][..0] == [];
    var empty := Run(w, []);
    assert Run(w, [a]) == Next(w, empty, a.0, a.1);
  }

  /** Intake into an empty store makes the record a candidate. */
  lemma StoredAlone(env: Env, r: Record, now: int)
    ensures Taken(env, map[], r, now) == map[r.memoryId := r.(status := Candidate, updatedAt := now)]
  {
    var empty: Table := map[];
    var rows := Listing(empty, Rivals(r));
    assert Lists(empty, Rivals(r), []);
    ListsUnique(empty, Rivals(r), rows, []);
  }

  // ---------- what one step leaves ----------

  /** An extracted atom is stored whole as a candidate under its own id. */
  lemma AtomIsStored(w: World, t: Table, atom: Atom, now: int)
    requires Keyed(t)
    ensures var next := Next(w, t, StoreAtom(atom), now);
      && atom.atomId in next && next == t[atom.atomId := next[atom.atomId]]
      && var r := next[atom.atomId];
      && r.payload == L1(atom) && r.ownerId == atom.ownerId && r.content == atom.claim && r.status == Candidate
      && r.namespace == "memory://oncall/l1-atoms" && r.review == None && r.accessCount == 0 && r.updatedAt == now
      && r.source == "l0-evidence-schema-extractor, NOT reviewed active memory"
      && "evidence_type" in r.evidence.fields && r.evidence.fields["evidence_type"] == "l1_atom_candidate"
      && "l0_evidence_id" in r.evidence.fields && r.evidence.fields["l0_evidence_id"] == atom.evidenceId
      && r.evidence.lifecycleEvents == []
  {
  }

  /** The reviewer, note and source of an operator's step, the decision it records and
      the status it leads to. */
  datatype Decree = Decree(reviewer: string, note: string, source: string, decision: Decision, status: Status)

  ghost function DecreeOf(step: Step): Option<Decree> {
    match step
    case RestoreOne(_, reviewer, note, source) => Some(Decree(reviewer, note, source, Approve, Active))
    case SupersedeOne(_, _, reviewer, note, source) => Some(Decree(reviewer, note, source, Supersede, Superseded))
    case ApproveOne(_, reviewer, note, source) => Some(Decree(reviewer, note, source, Approve, Active))
    case RejectOne(_, reviewer, note, source) => Some(Decree(reviewer, note, source, Reject, Deprecated))
    case DeprecateAllOf(_, reviewer, note, source) => Some(Decree(reviewer, note, source, Deprecate, Deprecated))
    case _ => None
  }

  /** Every record that an operator's step changes has its status and its review. */
  lemma OperatorsSign(w: World, t: Table, step: Step, now: int, id: string)
    requires Keyed(t) && DecreeOf(step).Some? && id in t
    ensures var next, d := Next(w, t, step, now), DecreeOf(step).value;
      && id in next
      && (next[id] != t[id] ==>
            next[id].status == d.status
            && LifecycleRules.ReviewOf(next[id].review, d.decision, d.reviewer, d.note, d.source, t[id], now))
  {
    match step {
      case RestoreOne(x, reviewer, note, source) =>
        LifecycleRules.RestorationExact(t, x, reviewer, note, source, now);
      case SupersedeOne(x, successor, reviewer, note, source) =>
        LifecycleRules.SupersedingExact(t, x, successor, reviewer, note, source, now);
      case ApproveOne(x, reviewer, note, source) =>
        LifecycleRules.ApprovalExact(t, x, reviewer, note, source, now);
      case RejectOne(x, reviewer, note, source) =>
        LifecycleRules.RejectionExact(t, x, reviewer, note, source, now);
      case DeprecateAllOf(owner, reviewer, note, source) =>
        DeprecationSigns(t, owner, reviewer, note, source, now, id);
    }
  }

  lemma DeprecationSigns(t: Table, ownerId: string, reviewer: string, note: string, source: string, now: int, id: string)
    requires Keyed(t) && id in t
    ensures var next := DeprecateOwner(t, ownerId, reviewer, note, source, now).0;
      && id in next
      && (next[id] != t[id] ==>
            next[id].status == Deprecated
            && LifecycleRules.ReviewOf(next[id].review, Deprecate, reviewer, note, source, t[id], now))
  {
    if LifecycleRules.Signed(reviewer, note, source) {
      LifecycleRules.OwnerDeprecationExact(t, ownerId, reviewer, note, source, now);
    } else {
      BlankReviewRetiresNothing(t, ownerId, reviewer, note, source, now);
    }
  }
}
