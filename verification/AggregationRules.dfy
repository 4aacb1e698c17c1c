/** When atoms make a scenario and which, said with the requested ids and the fields
    of the atoms they name. */
module AggregationRules {
  import opened Wrappers
  import opened Places
  import opened PyText
  import opened TotalOrders
  import opened MemoryModels
  import opened MemoryStore
  import opened MemoryCandidates
  import opened MemoryAggregator
  import IntakeRules

  // ---------- the atoms ----------

  /** The requested ids that name records of the owner. */
  ghost function OwnIds(t: Table, ownerId: string, ids: seq<string>): set<string> {
    set id | id in ids && id in t && t[id].ownerId == ownerId
  }

  /** And among them the atoms of a stable status. */
  ghost function AtomIds(cfg: Config, t: Table, ownerId: string, ids: seq<string>): set<string> {
    set id | id in OwnIds(t, ownerId, ids) && t[id].payload.L1? && t[id].status in cfg.stable
  }

  ghost predicate DistinctIds(rows: seq<Record>) {
    forall i, j :: 0 <= i < j < |rows| ==> rows[i].memoryId != rows[j].memoryId
  }

  lemma {:induction false} RowsPerId(rows: seq<Record>, ids: set<string>)
    requires DistinctIds(rows) && forall id :: id in ids <==> exists r :: r in rows && r.memoryId == id
    ensures |rows| == |ids|
  {
    if rows == [] {
      assert forall id :: id !in ids;
      assert ids == {};
    } else {
      var id := rows[0].memoryId;
      assert rows[0] in rows;
      forall x ensures x in ids - {id} <==> exists r :: r in rows[1..] && r.memoryId == x {
        if x in ids - {id} {
          var r :| r in rows && r.memoryId == x;
          assert r in rows[1..];
        }
      }
      RowsPerId(rows[1..], ids - {id});
    }
  }

  lemma MembersAreDistinct(t: Table, rows: seq<Record>)
    requires Distinct(rows) && forall r :: r in rows ==> r.memoryId in t && t[r.memoryId] == r
    ensures DistinctIds(rows)
  {
    forall i, j | 0 <= i < j < |rows| ensures rows[i].memoryId != rows[j].memoryId {
      assert rows[i] in rows && rows[j] in rows && rows[i] != rows[j];
    }
  }

  lemma LoadedCount(t: Table, ownerId: string, ids: seq<string>)
    requires Keyed(t)
    ensures |Loaded(t, ownerId, ids)| == |OwnIds(t, ownerId, ids)|
  {
    var rows := Loaded(t, ownerId, ids);
    LoadedDistinct(t, ownerId, ids);
    forall r ensures r in rows <==> r.memoryId in ids && r.memoryId in t && t[r.memoryId] == r && r.ownerId == ownerId {
      LoadedMembers(t, ownerId, ids, r);
    }
    MembersAreDistinct(t, rows);
    forall id ensures id in OwnIds(t, ownerId, ids) <==> exists r :: r in rows && r.memoryId == id {
      if id in OwnIds(t, ownerId, ids) {
        assert t[id] in rows;
      }
    }
    RowsPerId(rows, OwnIds(t, ownerId, ids));
  }

  /** The rows are the atoms, each once. */
  ghost predicate AtomRows(cfg: Config, t: Table, ownerId: string, ids: seq<string>, rows: seq<Record>) {
    && DistinctIds(rows)
    && (forall r :: r in rows ==> r.memoryId in AtomIds(cfg, t, ownerId, ids) && t[r.memoryId] == r)
    && (forall id :: id in AtomIds(cfg, t, ownerId, ids) ==> t[id] in rows)
  }

  lemma StableExact(cfg: Config, t: Table, ownerId: string, ids: seq<string>)
    requires Keyed(t)
    ensures AtomRows(cfg, t, ownerId, ids, Stable(cfg, Loaded(t, ownerId, ids)))
  {
    var rows := Stable(cfg, Loaded(t, ownerId, ids));
    LoadedDistinct(t, ownerId, ids);
    StableDistinct(cfg, Loaded(t, ownerId, ids));
    forall r ensures r in rows <==> r.memoryId in AtomIds(cfg, t, ownerId, ids) && t[r.memoryId] == r {
      StableMembers(cfg, t, ownerId, ids, r);
    }
    MembersAreDistinct(t, rows);
  }

  lemma AtomCount(cfg: Config, t: Table, ownerId: string, ids: seq<string>, rows: seq<Record>)
    requires Keyed(t) && AtomRows(cfg, t, ownerId, ids, rows)
    ensures |rows| == |AtomIds(cfg, t, ownerId, ids)|
  {
    forall id ensures id in AtomIds(cfg, t, ownerId, ids) <==> exists r :: r in rows && r.memoryId == id {
      if id in AtomIds(cfg, t, ownerId, ids) {
        assert t[id] in rows;
      }
    }
    RowsPerId(rows, AtomIds(cfg, t, ownerId, ids));
  }

  // ---------- one scope ----------

  /** What the atoms say of one part of their scope, empty texts aside. */
  ghost function Said(t: Table, ids: set<string>, part: Atom -> Option<string>): set<string> {
    set id | id in ids && id in t && t[id].payload.L1? && part(t[id].payload.atom).Some?
             && part(t[id].payload.atom).value != "" :: part(t[id].payload.atom).value
  }

  /** No two atoms differ in what they say. */
  ghost predicate Unanimous(said: set<string>) {
    forall a, b :: a in said && b in said ==> a == b
  }

  lemma AtMostOne(said: set<string>)
    ensures |said| <= 1 <==> Unanimous(said)
  {
    if Unanimous(said) && said != {} {
      var a :| a in said;
      assert said == {a};
    }
    if a, b :| a in said && b in said && a != b {
      assert |{a, b}| == 2 && {a, b} <= said;
      SubsetSize({a, b}, said);
    }
  }

  lemma SubsetSize(a: set<string>, b: set<string>)
    requires a <= b
    ensures |a| <= |b|
  {
    assert b == a + (b - a);
  }

  ghost function ServiceOf(): Atom -> Option<string> {
    (a: Atom) => a.service
  }

  ghost function AlertOf(): Atom -> Option<string> {
    (a: Atom) => a.alertName
  }

  ghost function EnvironmentOf(): Atom -> Option<string> {
    (a: Atom) => a.environment
  }

  ghost predicate OneScope(t: Table, ids: set<string>) {
    Unanimous(Said(t, ids, ServiceOf())) && Unanimous(Said(t, ids, AlertOf())) && Unanimous(Said(t, ids, EnvironmentOf()))
  }

  lemma ScopeIsSaid(cfg: Config, t: Table, ownerId: string, ids: seq<string>, rows: seq<Record>)
    requires Keyed(t) && AtomRows(cfg, t, ownerId, ids, rows)
    ensures Services(rows) == Said(t, AtomIds(cfg, t, ownerId, ids), ServiceOf())
    ensures Alerts(rows) == Said(t, AtomIds(cfg, t, ownerId, ids), AlertOf())
    ensures Environments(rows) == Said(t, AtomIds(cfg, t, ownerId, ids), EnvironmentOf())
  {
    var atoms := AtomIds(cfg, t, ownerId, ids);
    assert forall id :: id in atoms ==> t[id] in rows && id in t;
    assert forall r :: r in rows ==> r.memoryId in atoms && t[r.memoryId] == r;
  }

  /** Enough records of the owner are named, enough of them are atoms of a stable
      status, and these agree on their scope. */
  lemma EnoughExactly(cfg: Config, t: Table, ownerId: string, ids: seq<string>)
    requires Keyed(t)
    ensures var atoms := AtomIds(cfg, t, ownerId, ids);
      Enough(cfg, t, ownerId, ids) <==>
      |OwnIds(t, ownerId, ids)| >= cfg.minAtoms && |atoms| >= cfg.minAtoms && OneScope(t, atoms)
  {
    var rows, atoms := Stable(cfg, Loaded(t, ownerId, ids)), AtomIds(cfg, t, ownerId, ids);
    LoadedCount(t, ownerId, ids);
    StableExact(cfg, t, ownerId, ids);
    AtomCount(cfg, t, ownerId, ids, rows);
    ScopeIsSaid(cfg, t, ownerId, ids, rows);
    AtMostOne(Said(t, atoms, ServiceOf()));
    AtMostOne(Said(t, atoms, AlertOf()));
    AtMostOne(Said(t, atoms, EnvironmentOf()));
  }

  // ---------- the scenario ----------

  /** Root causes first, then checks, remediations, negative observations and changes. */
  const KINDS: seq<AtomType> := [RootCause, Check, Remediation, Negative, ConfigOrDeploy]

  /** An earlier kind; among equal kinds the older record, then the smaller id. */
  ghost predicate AtomBefore(a: Record, b: Record) {
    && a.payload.L1? && b.payload.L1?
    && exists i, j :: 0 <= i <= j < |KINDS| && KINDS[i] == a.payload.atom.atomType && KINDS[j] == b.payload.atom.atomType
                      && (i == j ==> IntakeRules.RowBefore(a, b))
  }

  lemma AtomLeExact(a: Record, b: Record)
    requires a.payload.L1? && b.payload.L1?
    ensures AtomLe(a, b) <==> AtomBefore(a, b)
  {
    var i, j := Priority(a), Priority(b);
    assert KINDS[i] == a.payload.atom.atomType && KINDS[j] == b.payload.atom.atomType;
    assert RowLe(KeyOf(a), KeyOf(b)) <==> IntakeRules.RowBefore(a, b);
  }

  /** The atoms in that order. */
  ghost predicate InOrder(cfg: Config, t: Table, ownerId: string, ids: seq<string>, rows: seq<Record>) {
    && AtomRows(cfg, t, ownerId, ids, rows)
    && forall i, j :: 0 <= i < j < |rows| ==> AtomBefore(rows[i], rows[j])
  }

  lemma AtomLeIsPreorder()
    ensures TotalPreorder(AtomLe)
  {
    RowLeIsTotalOrder();
  }

  lemma SortedAtoms(cfg: Config, t: Table, ownerId: string, ids: seq<string>)
    requires Keyed(t)
    ensures InOrder(cfg, t, ownerId, ids, SortAtoms(Stable(cfg, Loaded(t, ownerId, ids))))
  {
    var rows := Stable(cfg, Loaded(t, ownerId, ids));
    var ordered := SortAtoms(rows);
    StableExact(cfg, t, ownerId, ids);
    AtomLeIsPreorder();
    SortSorts(AtomLe, rows);
    assert forall r :: r in ordered <==> r in rows by {
      assert forall r :: r in ordered <==> r in multiset(ordered);
      assert forall r :: r in rows <==> r in multiset(rows);
    }
    StillDistinct(rows, ordered);
    forall i, j | 0 <= i < j < |ordered| ensures AtomBefore(ordered[i], ordered[j]) {
      assert ordered[i] in ordered && ordered[j] in ordered;
      AtomLeExact(ordered[i], ordered[j]);
    }
  }

  lemma StillDistinct(rows: seq<Record>, ordered: seq<Record>)
    requires DistinctIds(rows) && multiset(ordered) == multiset(rows)
    ensures DistinctIds(ordered)
  {
    forall i, j | 0 <= i < j < |ordered| ensures ordered[i].memoryId != ordered[j].memoryId {
      assert ordered[i] in multiset(rows) && ordered[j] in multiset(rows);
      var k :| 0 <= k < |rows| && rows[k] == ordered[i];
      var l :| 0 <= l < |rows| && rows[l] == ordered[j];
      if k == l {
        TwoOccurrences(ordered, i, j);
        assert Distinct(rows);
        DistinctCount(rows, rows[k]);
      }
    }
  }

  /** One part of the scenario key: what the atoms say, normalised, or "any". */
  ghost predicate PartOf(env: Env, said: set<string>, part: string) {
    if forall v :: v in said ==> env.norm(v) == "" then part == "any"
    else exists v :: v in said && env.norm(v) != "" && part == env.norm(v)
  }

  lemma OrAnyExact(env: Env, said: set<string>)
    requires Unanimous(said)
    ensures PartOf(env, said, OrAny(env, Only(said)))
  {
  }

  /** Is the id not blank? */
  ghost function HasId(rows: seq<Record>): int -> bool {
    k => 0 <= k < |rows| && Strip(rows[k].memoryId) != ""
  }

  ghost function IdOf(rows: seq<Record>): (int, string) -> bool {
    (k, id) => 0 <= k < |rows| && id == Strip(rows[k].memoryId)
  }

  /** The atoms' ids, stripped, in order, without the blank ones. */
  ghost predicate StrippedIds(rows: seq<Record>, places: seq<int>, ids: seq<string>) {
    PlacesOf(|rows|, HasId(rows), places) && Matching(IdOf(rows), places, ids)
  }

  lemma {:induction false} PayloadIdsExact(rows: seq<Record>) returns (places: seq<int>)
    ensures StrippedIds(rows, places, PayloadIds(rows))
  {
    places := [];
    if rows != [] {
      var later := PayloadIdsExact(rows[1..]);
      var head := if Blank(rows[0].memoryId) then [] else [Strip(rows[0].memoryId)];
      places := WithFirst(head != [], later);
      PlacesMove(|rows| - 1, HasId(rows[1..]), later, HasId(rows));
      MatchingMoves(IdOf(rows[1..]), later, PayloadIds(rows[1..]), IdOf(rows), head);
    }
  }

  /** The key of a scenario names the owner and what its atoms say. */
  ghost predicate KeyFor(env: Env, ownerId: string, t: Table, atoms: set<string>, key: string) {
    exists service, alert, environment ::
      && PartOf(env, Said(t, atoms, ServiceOf()), service) && PartOf(env, Said(t, atoms, AlertOf()), alert)
      && PartOf(env, Said(t, atoms, EnvironmentOf()), environment)
      && key == "owner=" + env.norm(ownerId) + "|service=" + service + "|alert=" + alert + "|environment=" + environment
  }

  /** The candidate made of the atoms: named after its key and their ids, it renders
      them and lists them in order. */
  ghost predicate ScenarioOf(cfg: Config, t: Table, ownerId: string, ids: seq<string>, made: Record) {
    && made.payload.L2? && made.ownerId == ownerId && made.status == Candidate && made.review == None
    && made.namespace == "memory://oncall/l2-scenarios" && made.source == "l1-atom-aggregator, NOT reviewed active memory"
    && made.candidateReviewDeadline == None && made.accessCount == 0 && made.lastAccessedAt == None
    && made.evidence ==
       Evidence(map["evidence_type" := "l2_scenario_candidate", "scenario_key" := made.payload.scenarioKey], [], [])
    && KeyFor(cfg.env, ownerId, t, AtomIds(cfg, t, ownerId, ids), made.payload.scenarioKey)
    && exists ordered, places ::
      && InOrder(cfg, t, ownerId, ids, ordered) && StrippedIds(ordered, places, made.payload.l1AtomIds)
      && made.content == cfg.render(made.payload.scenarioKey, ordered)
      && made.memoryId == "l2_scenario_" + cfg.env.digest([made.payload.scenarioKey] + Sort(StrLe, IdsOf(ordered)))
  }

  lemma MadeIsScenario(cfg: Config, t: Table, ownerId: string, ids: seq<string>)
    requires Keyed(t) && ScenarioFor(cfg, t, ownerId, ids).Some?
    ensures ScenarioOf(cfg, t, ownerId, ids, ScenarioFor(cfg, t, ownerId, ids).value)
  {
    var rows, atoms := Stable(cfg, Loaded(t, ownerId, ids)), AtomIds(cfg, t, ownerId, ids);
    var ordered, scope := SortAtoms(rows), ScopeOf(rows).value;
    StableExact(cfg, t, ownerId, ids);
    ScopeIsSaid(cfg, t, ownerId, ids, rows);
    KeyIsFor(cfg.env, ownerId, t, atoms, scope, ScenarioKeyOf(cfg.env, ownerId, scope));
    SortedAtoms(cfg, t, ownerId, ids);
    var places := PayloadIdsExact(ordered);
    assert ScenarioFor(cfg, t, ownerId, ids).value == ScenarioRecord(cfg, ownerId, scope, ordered);
  }

  lemma KeyIsFor(env: Env, ownerId: string, t: Table, atoms: set<string>, scope: Scope, key: string)
    requires |Said(t, atoms, ServiceOf())| <= 1 && |Said(t, atoms, AlertOf())| <= 1 && |Said(t, atoms, EnvironmentOf())| <= 1
    requires scope == Scope(Only(Said(t, atoms, ServiceOf())), Only(Said(t, atoms, AlertOf())),
                            Only(Said(t, atoms, EnvironmentOf())))
    requires key == ScenarioKeyOf(env, ownerId, scope)
    ensures KeyFor(env, ownerId, t, atoms, key)
  {
    var service, alert, environment := Said(t, atoms, ServiceOf()), Said(t, atoms, AlertOf()), Said(t, atoms, EnvironmentOf());
    AtMostOne(service);
    AtMostOne(alert);
    AtMostOne(environment);
    OrAnyExact(env, service);
    OrAnyExact(env, alert);
    OrAnyExact(env, environment);
    assert key == "owner=" + env.norm(ownerId) + "|service=" + OrAny(env, scope.service) + "|alert="
      + OrAny(env, scope.alertName) + "|environment=" + OrAny(env, scope.environment);
  }

  // ---------- the table after aggregation ----------

  /** Without enough atoms of one scope aggregation is skipped, with blank ids only it
      is refused; otherwise the scenario of the atoms is reported as a duplicate of
      the first live record that says the same, if there is one, and else added. */
  ghost predicate AggregationOutcome(cfg: Config, t: Table, ownerId: string, ids: seq<string>, now: int, next: Table,
                                     out: Outcome) {
    var atoms := AtomIds(cfg, t, ownerId, ids);
    if !(|OwnIds(t, ownerId, ids)| >= cfg.minAtoms && |atoms| >= cfg.minAtoms && OneScope(t, atoms)) then
      next == t && out == Skipped
    else if forall id :: id in atoms ==> Strip(id) == "" then
      next == t && out == Refused
    else
      exists made ::
        && ScenarioOf(cfg, t, ownerId, ids, made)
        && if exists id :: IntakeRules.Same(cfg.env, t, made, id) then
             && next == t && out.DuplicateOf?
             && IntakeRules.ReportedAsDuplicate(cfg.env, t, made, Stored(t, Duplicate, out.existing))
           else
             && out == Added(made.(updatedAt := now)) && next == t[made.memoryId := made.(updatedAt := now)]
  }

  lemma NoIdsLeft(cfg: Config, t: Table, ownerId: string, ids: seq<string>)
    requires Keyed(t)
    ensures PayloadIds(SortAtoms(Stable(cfg, Loaded(t, ownerId, ids)))) == [] <==>
            forall id :: id in AtomIds(cfg, t, ownerId, ids) ==> Strip(id) == ""
  {
    var ordered, atoms := SortAtoms(Stable(cfg, Loaded(t, ownerId, ids))), AtomIds(cfg, t, ownerId, ids);
    SortedAtoms(cfg, t, ownerId, ids);
    var places := PayloadIdsExact(ordered);
    if id :| id in atoms && Strip(id) != "" {
      var k :| 0 <= k < |ordered| && ordered[k] == t[id];
      assert k in places;
    }
    if places != [] {
      assert places[0] in places;
      assert ordered[places[0]] in ordered;
    }
  }

  lemma ScenarioIsSettled(env: Env, t: Table, made: Record, now: int)
    requires Keyed(t) && made.payload.L2? && made.status == Candidate
    ensures var (next, out) := AddUnlessDuplicate(env, t, made, now);
      if exists id :: IntakeRules.Same(env, t, made, id) then
        && next == t && out.DuplicateOf?
        && IntakeRules.ReportedAsDuplicate(env, t, made, Stored(t, Duplicate, out.existing))
      else
        && out == Added(made.(updatedAt := now)) && next == t[made.memoryId := made.(updatedAt := now)]
  {
    assert made.(status := Candidate) == made;
    IntakeRules.DuplicatesReported(env, t, made, Listing(t, Rivals(made)));
  }

  lemma AggregationExactly(cfg: Config, t: Table, ownerId: string, ids: seq<string>, now: int)
    requires Keyed(t)
    ensures var (next, out) := Aggregate(cfg, t, ownerId, ids, now);
      AggregationOutcome(cfg, t, ownerId, ids, now, next, out)
  {
    EnoughExactly(cfg, t, ownerId, ids);
    NoIdsLeft(cfg, t, ownerId, ids);
    var made := ScenarioFor(cfg, t, ownerId, ids);
    if made.Some? {
      MadeIsScenario(cfg, t, ownerId, ids);
      ScenarioIsSettled(cfg.env, t, made.value, now);
    }
  }
}
