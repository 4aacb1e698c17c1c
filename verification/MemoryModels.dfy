/** Reviewed on-call memory: records, their payloads, reviews and lifecycle logs. */
module MemoryModels {
  import opened Wrappers
  import opened PyText

  // ---------- records ----------

  datatype Status = Active | Candidate | Conflict | StaleSuspect | Superseded | Deprecated

  datatype Decision = Approve | Reject | Supersede | Deprecate

  datatype Review = Review(
    decision: Decision,
    reviewerId: string,
    decisionNote: string,
    previousStatus: Status,
    decisionSource: string,
    reviewedAt: int)

  datatype AtomType = RootCause | Check | Remediation | Negative | ConfigOrDeploy

  datatype Atom = Atom(
    atomId: string,
    ownerId: string,
    evidenceId: string,
    atomType: AtomType,
    service: Option<string>,
    alertName: Option<string>,
    environment: Option<string>,
    claim: string,
    rootCause: Option<string>,
    remediation: Option<string>,
    negatesMemoryId: Option<string>,
    validUntil: Option<int>,
    confidence: real,
    evidenceRefs: seq<string>)

  datatype MemoryType =
    AlertPatternType | PlanTemplateType | PreferenceType | RuntimeContextType | CandidateSummaryType | L1AtomType | L2ScenarioType

  datatype Payload =
    | AlertPattern(alertName: string, service: Option<string>, signalKeys: seq<string>, rootCause: string, fix: Option<string>)
    | PlanTemplate(alertType: string, planSteps: seq<string>, toolHints: seq<string>, stopConditions: seq<string>)
    | Preference(preferenceScope: string, preference: string, appliesTo: seq<string>)
    | RuntimeContext(contextKey: string, contextValue: string, expiresAt: Option<int>)
    | CandidateSummary(candidateKind: string, summary: string)
    | L1(atom: Atom)
    | L2(scenarioKey: string, l1AtomIds: seq<string>)

  /** One entry of `lifecycle_events`. */
  datatype Transition = Transition(from: Status, to: Status, trigger: string, recordedAt: int, details: map<string, string>)

  /** The evidence dictionary: its lifecycle log, its conflict list, and every
      other key. */
  datatype Evidence = Evidence(fields: map<string, string>, conflictsWith: seq<string>, lifecycleEvents: seq<Transition>)

  datatype Record = Record(
    memoryId: string,
    ownerId: string,
    namespace: string,
    payload: Payload,
    content: string,
    source: string,
    evidence: Evidence,
    status: Status,
    review: Option<Review>,
    candidateReviewDeadline: Option<int>,
    accessCount: nat,
    lastAccessedAt: Option<int>,
    updatedAt: int)

  /** The memory type is the type of the payload. */
  function TypeOf(r: Record): MemoryType {
    match r.payload
    case AlertPattern(_, _, _, _, _) => AlertPatternType
    case PlanTemplate(_, _, _, _) => PlanTemplateType
    case Preference(_, _, _) => PreferenceType
    case RuntimeContext(_, _, _) => RuntimeContextType
    case CandidateSummary(_, _) => CandidateSummaryType
    case L1(_) => L1AtomType
    case L2(_, _) => L2ScenarioType
  }

  /** The table: memory id to record. */
  type Table = map<string, Record>

  /** What the model leaves open: text normalisation and digests. */
  datatype Env = Env(norm: string -> string, digest: seq<string> -> string)

  // ---------- reviews ----------

  /** Building a review strips its texts and refuses blank ones. */
  function BuildReview(decision: Decision, reviewerId: string, note: string, previous: Status, source: string, now: int)
    : (r: Result<Review>)
    ensures r.Ok? <==> !Blank(reviewerId) && !Blank(note) && !Blank(source)
    ensures r.Ok? ==> r.value.decision == decision && r.value.previousStatus == previous && GoodReview(r.value)
  {
    StripAgain(reviewerId);
    StripAgain(note);
    if Blank(reviewerId) then Raised("reviewer_id is required")
    else if Blank(note) then Raised("decision_note is required")
    else if Blank(source) then Raised("decision_source is required")
    else Ok(Review(decision, Strip(reviewerId), Strip(note), previous, Strip(source), now))
  }

  ghost predicate GoodReview(r: Review) {
    !Blank(r.reviewerId) && !Blank(r.decisionNote)
  }

  // ---------- lifecycle logs ----------

  predicate LegalTransition(from: Status, to: Status) {
    || (from == Active && to == StaleSuspect)
    || (from == StaleSuspect && to == Active)
    || ((from == Active || from == StaleSuspect) && to == Superseded)
  }

  /** The status a log leads to from `active`, if every step is legal. */
  function Replay(log: seq<Transition>): Option<Status> {
    if log == [] then Some(Active)
    else
      var last := log[|log| - 1];
      if Replay(log[..|log| - 1]) == Some(last.from) && LegalTransition(last.from, last.to) then Some(last.to) else None
  }

  lemma ReplayAppend(log: seq<Transition>, t: Transition)
    requires Replay(log) == Some(t.from) && LegalTransition(t.from, t.to)
    ensures Replay(log + [t]) == Some(t.to)
  {
    assert (log + [t])[..|log|] == log;
  }

  /** The log explains the status. */
  ghost predicate LogExplains(r: Record) {
    var log := r.evidence.lifecycleEvents;
    match r.status
    case Candidate => log == []
    case Conflict => log == []
    case Active => Replay(log) == Some(Active)
    case StaleSuspect => Replay(log) == Some(StaleSuspect)
    case Superseded => Replay(log) == Some(Superseded)
    case Deprecated =>
      && r.review.Some?
      && var before := r.review.value.previousStatus;
      if before == Candidate || before == Conflict then log == [] else Replay(log) == Some(before)
  }

  /** The review justifies the status. */
  ghost predicate ReviewJustifies(r: Record) {
    && (r.status == Active || r.status == StaleSuspect ==>
          r.review.Some? && r.review.value.decision == Approve && GoodReview(r.review.value) && !r.payload.CandidateSummary?)
    && (r.status == Superseded ==>
          r.review.Some? && r.review.value.decision == Supersede && GoodReview(r.review.value))
    && (r.status == Deprecated ==>
          r.review.Some? && (r.review.value.decision == Reject || r.review.value.decision == Deprecate)
          && GoodReview(r.review.value))
  }
}
