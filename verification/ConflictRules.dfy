/** When a fresh atom turns a record into a stale suspect, and what it writes, said
    with the fields of the atom and of the record. */
module ConflictRules {
  import opened Wrappers
  import opened PyText
  import opened TotalOrders
  import opened MemoryModels
  import opened MemoryStore
  import opened ConflictDetector
  import opened MemoryLifecycle

  // ---------- texts ----------

  ghost predicate StandsAt(text: string, part: string, i: int) {
    0 <= i <= |text| - |part| && text[i..i + |part|] == part
  }

  /** `part` stands somewhere in `text`. */
  ghost predicate Within(text: string, part: string) {
    exists i :: StandsAt(text, part, i)
  }

  lemma StandsLater(s: string, sub: string, i: nat)
    requires s != ""
    ensures StandsAt(s[1..], sub, i) <==> StandsAt(s, sub, i + 1)
  {
    if i + 1 + |sub| <= |s| {
      var a, b := s[1..][i..i + |sub|], s[i + 1..i + 1 + |sub|];
      assert forall k :: 0 <= k < |sub| ==> a[k] == b[k];
      assert a == b;
    }
  }

  lemma StandsFirst(s: string, sub: string)
    ensures sub <= s <==> StandsAt(s, sub, 0)
  {
    if |sub| <= |s| {
      assert s[0..0 + |sub|] == s[..|sub|];
    }
  }

  lemma {:induction false} ContainsExact(s: string, sub: string)
    ensures Contains(s, sub) <==> Within(s, sub)
  {
    StandsFirst(s, sub);
    if s != "" {
      ContainsExact(s[1..], sub);
      if i :| StandsAt(s[1..], sub, i) {
        StandsLater(s, sub, i);
      }
      if i :| StandsAt(s, sub, i) {
        if i > 0 {
          StandsLater(s, sub, i - 1);
        }
      }
    }
  }

  /** The normalised claim mentions one of the words. */
  ghost predicate Mentions(rules: Rules, words: seq<string>, claim: string) {
    exists w :: w in words && Within(rules.norm(claim), w)
  }

  lemma HasMarkerExact(rules: Rules, words: seq<string>, claim: string)
    ensures HasMarker(rules, words, claim) <==> Mentions(rules, words, claim)
  {
    if k :| 0 <= k < |words| && Contains(rules.norm(claim), words[k]) {
      ContainsExact(rules.norm(claim), words[k]);
    }
    if w :| w in words && Within(rules.norm(claim), w) {
      ContainsExact(rules.norm(claim), w);
    }
  }

  /** An absent text counts as empty. */
  ghost function TextOf(s: Option<string>): string {
    if s.Some? then s.value else ""
  }

  ghost predicate Unlike(rules: Rules, a: string, b: string) {
    a != "" && b != "" && rules.norm(a) != rules.norm(b)
  }

  ghost predicate Alike(rules: Rules, a: string, b: string) {
    a != "" && b != "" && rules.norm(a) == rules.norm(b)
  }

  // ---------- scope ----------

  ghost function EvidenceText(r: Record, key: string): string {
    if key in r.evidence.fields then Strip(r.evidence.fields[key]) else ""
  }

  ghost function ServiceOf(r: Record): string {
    if r.payload.AlertPattern? then TextOf(r.payload.service) else EvidenceText(r, "service")
  }

  ghost function AlertOf(r: Record): string {
    if r.payload.AlertPattern? then r.payload.alertName
    else if r.payload.PlanTemplate? then r.payload.alertType
    else EvidenceText(r, "alert_name")
  }

  ghost function EnvironmentOf(r: Record): string {
    EvidenceText(r, "environment")
  }

  /** Service, alert and environment: none is unlike, one at least alike. */
  ghost predicate InScope(rules: Rules, atom: Atom, r: Record) {
    var service, alert, environment := TextOf(atom.service), TextOf(atom.alertName), TextOf(atom.environment);
    && !(Unlike(rules, service, ServiceOf(r)) || Unlike(rules, alert, AlertOf(r))
         || Unlike(rules, environment, EnvironmentOf(r)))
    && (Alike(rules, service, ServiceOf(r)) || Alike(rules, alert, AlertOf(r))
        || Alike(rules, environment, EnvironmentOf(r)))
  }

  lemma FieldExact(r: Record, key: string)
    ensures TextOf(Field(r, key)) == EvidenceText(r, key)
  {
  }

  lemma OldFieldsExact(r: Record)
    ensures TextOf(OldService(r)) == ServiceOf(r)
    ensures TextOf(OldAlertName(r)) == AlertOf(r)
    ensures TextOf(OldEnvironment(r)) == EnvironmentOf(r)
  {
    FieldExact(r, "service");
    FieldExact(r, "alert_name");
    FieldExact(r, "environment");
  }

  lemma ComparisonsExact(rules: Rules, a: Option<string>, b: Option<string>)
    ensures Differ(rules, a, b) <==> Unlike(rules, TextOf(a), TextOf(b))
    ensures Agree(rules, a, b) <==> Alike(rules, TextOf(a), TextOf(b))
  {
  }

  lemma ScopeExact(rules: Rules, atom: Atom, r: Record)
    ensures ScopeMatches(rules, atom, r) <==> InScope(rules, atom, r)
  {
    OldFieldsExact(r);
    ComparisonsExact(rules, atom.service, OldService(r));
    ComparisonsExact(rules, atom.alertName, OldAlertName(r));
    ComparisonsExact(rules, atom.environment, OldEnvironment(r));
  }

  // ---------- evidence and claims ----------

  /** Some evidence is referred to, the confidence is high enough and the validity
      has not run out. */
  ghost predicate Current(rules: Rules, atom: Atom, now: int) {
    |atom.evidenceRefs| > 0 && !(atom.confidence < rules.minConfidence)
    && !(atom.validUntil.Some? && atom.validUntil.value < now)
  }

  ghost predicate Negates(atom: Atom, id: string) {
    atom.negatesMemoryId == Some(id) && id != ""
  }

  /** A negative atom whose claim contains the record's root cause or fix. */
  ghost predicate Denies(rules: Rules, atom: Atom, r: Record) {
    && atom.atomType == Negative && r.payload.AlertPattern? && Mentions(rules, rules.negativeMarkers, atom.claim)
    && exists old_ :: (old_ == r.payload.rootCause || old_ == TextOf(r.payload.fix)) && old_ != ""
                      && Within(rules.norm(atom.claim), rules.norm(old_))
  }

  /** Another root cause, another fix, a plan's stop condition denied, or a changed
      configuration or deployment. */
  ghost predicate Doubts(rules: Rules, atom: Atom, r: Record) {
    match atom.atomType
    case RootCause =>
      r.payload.AlertPattern? && atom.rootCause.Some? && atom.rootCause.value != ""
      && rules.norm(atom.rootCause.value) != rules.norm(r.payload.rootCause)
    case Remediation => r.payload.AlertPattern? && Unlike(rules, TextOf(atom.remediation), TextOf(r.payload.fix))
    case Negative =>
      && r.payload.PlanTemplate? && Mentions(rules, rules.negativeMarkers, atom.claim)
      && exists stop :: stop in r.payload.stopConditions && rules.norm(stop) != ""
                        && Within(rules.norm(atom.claim), rules.norm(stop))
    case ConfigOrDeploy =>
      (r.payload.AlertPattern? || r.payload.PlanTemplate?) && Mentions(rules, rules.configMarkers, atom.claim)
    case Check => false
  }

  lemma DeniesExact(rules: Rules, atom: Atom, r: Record)
    requires r.payload.AlertPattern?
    ensures Denies(rules, atom, r) <==>
      && atom.atomType == Negative
      && (ClaimDenies(rules, atom.claim, Some(r.payload.rootCause)) || ClaimDenies(rules, atom.claim, r.payload.fix))
  {
    var claim := rules.norm(atom.claim);
    HasMarkerExact(rules, rules.negativeMarkers, atom.claim);
    ContainsExact(claim, rules.norm(r.payload.rootCause));
    ContainsExact(claim, rules.norm(TextOf(r.payload.fix)));
  }

  lemma StopsExact(rules: Rules, claim: string, stops: seq<string>)
    ensures (exists k :: 0 <= k < |stops| && rules.norm(stops[k]) != "" && Contains(claim, rules.norm(stops[k]))) <==>
            exists stop :: stop in stops && rules.norm(stop) != "" && Within(claim, rules.norm(stop))
  {
    if k :| 0 <= k < |stops| && rules.norm(stops[k]) != "" && Contains(claim, rules.norm(stops[k])) {
      ContainsExact(claim, rules.norm(stops[k]));
    }
    if stop :| stop in stops && rules.norm(stop) != "" && Within(claim, rules.norm(stop)) {
      ContainsExact(claim, rules.norm(stop));
      var k :| 0 <= k < |stops| && stops[k] == stop;
    }
  }

  lemma ClaimExact(rules: Rules, atom: Atom, r: Record)
    ensures ClaimVerdict(rules, atom, r) ==
      if Doubts(rules, atom, r) then PossibleConflict
      else if Denies(rules, atom, r) then SupersessionCandidate
      else NoConflict
  {
    HasMarkerExact(rules, rules.negativeMarkers, atom.claim);
    HasMarkerExact(rules, rules.configMarkers, atom.claim);
    match r.payload {
      case AlertPattern(_, _, _, _, fix) =>
        DeniesExact(rules, atom, r);
        ComparisonsExact(rules, atom.remediation, fix);
      case PlanTemplate(_, _, _, stops) => StopsExact(rules, rules.norm(atom.claim), stops);
      case _ =>
    }
  }

  // ---------- the verdict ----------

  /** The record may be contradicted at all. */
  ghost predicate Open(rules: Rules, atom: Atom, r: Record, now: int) {
    r.status == Active && r.ownerId == atom.ownerId && Current(rules, atom, now)
  }

  ghost predicate Doubted(rules: Rules, atom: Atom, r: Record, now: int) {
    && Open(rules, atom, r, now) && !Negates(atom, r.memoryId)
    && InScope(rules, atom, r) && Doubts(rules, atom, r)
  }

  ghost predicate Refuted(rules: Rules, atom: Atom, r: Record, now: int) {
    Open(rules, atom, r, now) && (Negates(atom, r.memoryId) || (InScope(rules, atom, r) && Denies(rules, atom, r)))
  }

  lemma VerdictExact(rules: Rules, atom: Atom, r: Record, now: int)
    ensures VerdictOf(rules, atom, r, now) ==
      if Doubted(rules, atom, r, now) then PossibleConflict
      else if Refuted(rules, atom, r, now) then SupersessionCandidate
      else NoConflict
    ensures !(Doubted(rules, atom, r, now) && Refuted(rules, atom, r, now))
  {
    ScopeExact(rules, atom, r);
    ClaimExact(rules, atom, r);
  }

  // ---------- the table after application ----------

  /** The event that stale marking appends. */
  ghost predicate MarkingEvent(e: Transition, atom: Atom, reason: string, word: string, now: int) {
    && e.from == Active && e.to == StaleSuspect && e.trigger == "conflict_detector" && e.recordedAt == now
    && e.details.Keys == {"conflicting_atom_id", "evidence_id", "conflict_reason", "conflict_verdict"}
    && e.details["conflicting_atom_id"] == atom.atomId && e.details["evidence_id"] == atom.evidenceId
    && e.details["conflict_reason"] == reason && e.details["conflict_verdict"] == word
  }

  /** The record became a stale suspect for the given reason: five keys written, one
      event appended, everything else as it was. */
  ghost predicate Flagged(r: Record, next: Record, atom: Atom, reason: string, word: string, now: int) {
    var written := {"conflicting_atom_id", "evidence_id", "conflict_reason", "conflict_verdict", "review_required"};
    var fields, log := next.evidence.fields, next.evidence.lifecycleEvents;
    && next == r.(status := StaleSuspect, updatedAt := now, evidence := next.evidence)
    && next.evidence.conflictsWith == r.evidence.conflictsWith
    && fields.Keys == r.evidence.fields.Keys + written
    && (forall k :: k in r.evidence.fields && k !in written ==> fields[k] == r.evidence.fields[k])
    && fields["conflicting_atom_id"] == atom.atomId && fields["evidence_id"] == atom.evidenceId
    && fields["conflict_reason"] == reason && fields["conflict_verdict"] == word && fields["review_required"] == "true"
    && |log| == |r.evidence.lifecycleEvents| + 1 && log[..|log| - 1] == r.evidence.lifecycleEvents
    && MarkingEvent(log[|log| - 1], atom, reason, word, now)
  }

  lemma StaledIsFlagged(r: Record, atom: Atom, v: Verdict, reason: string, now: int)
    requires r.status == Active && v != NoConflict
    ensures Flagged(r, Staled(r, atom, v, reason, now).(updatedAt := now), atom, reason,
                    if v == PossibleConflict then "possible_conflict" else "supersession_candidate", now)
  {
  }

  /** Applying an atom flags a record as a possible conflict exactly when the atom
      raises a doubt about it, as a candidate for supersession exactly when the atom
      refutes it, and leaves every other record as it was. */
  lemma ApplicationFlags(rules: Rules, t: Table, atom: Atom, now: int, id: string)
    requires Keyed(t) && id in t
    requires NoBlankIds(t, atom.ownerId) && Trimmed(rules, t, atom, now)
    ensures var next := ApplyConflicts(rules, t, atom, now).0;
      && next.Keys == t.Keys
      && if Doubted(rules, atom, t[id], now) then
           Flagged(t[id], next[id], atom, rules.reason(atom, t[id]), "possible_conflict", now)
         else if Refuted(rules, atom, t[id], now) then
           Flagged(t[id], next[id], atom, rules.reason(atom, t[id]), "supersession_candidate", now)
         else next[id] == t[id]
  {
    ApplyMarksExactly(rules, t, atom, now);
    VerdictExact(rules, atom, t[id], now);
    var v := VerdictOf(rules, atom, t[id], now);
    if v != NoConflict {
      StaledIsFlagged(t[id], atom, v, rules.reason(atom, t[id]), now);
    }
  }

  /** Findings come in the order of their ids. */
  lemma FindingsInOrder(rules: Rules, t: Table, atom: Atom, now: int)
    requires Keyed(t)
    ensures var found := Detected(rules, t, atom, now);
      forall i, j :: 0 <= i < j < |found| ==> ComesBefore(found[i].memoryId, found[j].memoryId)
  {
    var found := Detected(rules, t, atom, now);
    StrLeIsTotalOrder();
    SortSorts(FindingLe, FindingsOf(rules, atom, Listing(t, Suspects(atom)), now));
    forall i, j | 0 <= i < j < |found| ensures ComesBefore(found[i].memoryId, found[j].memoryId) {
      assert FindingLe(found[i], found[j]);
      StrLeExact(found[i].memoryId, found[j].memoryId);
    }
  }
}
