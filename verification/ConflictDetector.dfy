/** Rule-based conflict verdicts between a fresh atom and existing memory. */
module ConflictDetector {
  import opened Wrappers
  import opened PyText
  import opened MemoryModels

  datatype Verdict = NoConflict | PossibleConflict | SupersessionCandidate

  /** Markers are given already normalised; the wording of a result's reason is
      left open. */
  datatype Rules = Rules(norm: string -> string, negativeMarkers: seq<string>, configMarkers: seq<string>,
                         minConfidence: real, reason: (Atom, Record) -> string)

  /** Python's `sub in s`. */
  predicate Contains(s: string, sub: string) {
    sub <= s || (s != "" && Contains(s[1..], sub))
  }

  predicate HasMarker(rules: Rules, markers: seq<string>, text: string) {
    exists k :: 0 <= k < |markers| && Contains(rules.norm(text), markers[k])
  }

  /** An optional text that is present and not empty. */
  predicate Given(s: Option<string>) {
    s.Some? && s.value != ""
  }

  function Field(r: Record, key: string): Option<string> {
    if key in r.evidence.fields && r.evidence.fields[key] != "" then Some(Strip(r.evidence.fields[key])) else None
  }

  function OldService(r: Record): Option<string> {
    if r.payload.AlertPattern? then r.payload.service else Field(r, "service")
  }

  function OldAlertName(r: Record): Option<string> {
    match r.payload
    case AlertPattern(alert, _, _, _, _) => Some(alert)
    case PlanTemplate(alert, _, _, _) => Some(alert)
    case _ => Field(r, "alert_name")
  }

  function OldEnvironment(r: Record): Option<string> {
    Field(r, "environment")
  }

  predicate Differ(rules: Rules, a: Option<string>, b: Option<string>) {
    Given(a) && Given(b) && rules.norm(a.value) != rules.norm(b.value)
  }

  predicate Agree(rules: Rules, a: Option<string>, b: Option<string>) {
    Given(a) && Given(b) && rules.norm(a.value) == rules.norm(b.value)
  }

  /** No given scope differs and at least one agrees. */
  predicate ScopeMatches(rules: Rules, atom: Atom, r: Record) {
    && !Differ(rules, atom.service, OldService(r))
    && !Differ(rules, atom.alertName, OldAlertName(r))
    && !Differ(rules, atom.environment, OldEnvironment(r))
    && (Agree(rules, atom.service, OldService(r)) || Agree(rules, atom.alertName, OldAlertName(r))
        || Agree(rules, atom.environment, OldEnvironment(r)))
  }

  predicate CurrentEnough(rules: Rules, atom: Atom, now: int) {
    && atom.evidenceRefs != []
    && atom.confidence >= rules.minConfidence
    && (atom.validUntil.None? || atom.validUntil.value >= now)
  }

  predicate ClaimDenies(rules: Rules, claim: string, oldValue: Option<string>) {
    Given(oldValue) && Contains(rules.norm(claim), rules.norm(oldValue.value))
    && HasMarker(rules, rules.negativeMarkers, claim)
  }

  function ClaimVerdict(rules: Rules, atom: Atom, r: Record): Verdict {
    match r.payload
    case AlertPattern(_, _, _, rootCause, fix) =>
      if atom.atomType == RootCause && Given(atom.rootCause) && rules.norm(atom.rootCause.value) != rules.norm(rootCause)
      then PossibleConflict
      else if atom.atomType == Remediation && Differ(rules, atom.remediation, fix) then PossibleConflict
      else if atom.atomType == Negative
        && (ClaimDenies(rules, atom.claim, Some(rootCause)) || ClaimDenies(rules, atom.claim, fix))
      then SupersessionCandidate
      else if atom.atomType == ConfigOrDeploy && HasMarker(rules, rules.configMarkers, atom.claim) then PossibleConflict
      else NoConflict
    case PlanTemplate(_, _, _, stops) =>
      if atom.atomType == Negative && HasMarker(rules, rules.negativeMarkers, atom.claim)
        && (exists k :: 0 <= k < |stops| && rules.norm(stops[k]) != ""
              && Contains(rules.norm(atom.claim), rules.norm(stops[k])))
      then PossibleConflict
      else if atom.atomType == ConfigOrDeploy && HasMarker(rules, rules.configMarkers, atom.claim) then PossibleConflict
      else NoConflict
    case _ => NoConflict
  }

  predicate Names(atom: Atom, id: string) {
    Given(atom.negatesMemoryId) && atom.negatesMemoryId.value == id
  }

  /** `detect_conflict`. */
  function VerdictOf(rules: Rules, atom: Atom, r: Record, now: int): Verdict {
    if r.status != Active || r.ownerId != atom.ownerId || !CurrentEnough(rules, atom, now) then NoConflict
    else if Names(atom, r.memoryId) then SupersessionCandidate
    else if !ScopeMatches(rules, atom, r) then NoConflict
    else ClaimVerdict(rules, atom, r)
  }

  /** Evidence only grows old: a conflict seen later was there earlier. */
  lemma VerdictsFade(rules: Rules, atom: Atom, r: Record, now: int, later: int)
    requires now <= later
    ensures VerdictOf(rules, atom, r, later) == NoConflict
      || VerdictOf(rules, atom, r, later) == VerdictOf(rules, atom, r, now)
  {
  }

  /** A negative atom in the record's scope denies its root cause or its fix. */
  predicate DeniedInScope(rules: Rules, atom: Atom, r: Record) {
    && ScopeMatches(rules, atom, r) && r.payload.AlertPattern? && atom.atomType == Negative
    && (ClaimDenies(rules, atom.claim, Some(r.payload.rootCause)) || ClaimDenies(rules, atom.claim, r.payload.fix))
  }

  lemma SupersessionExact(rules: Rules, atom: Atom, r: Record, now: int)
    ensures VerdictOf(rules, atom, r, now) == SupersessionCandidate <==>
      && r.status == Active && r.ownerId == atom.ownerId && CurrentEnough(rules, atom, now)
      && (Names(atom, r.memoryId) || DeniedInScope(rules, atom, r))
  {
  }
}
