/** Aggregating stable atoms of one scope into one scenario candidate. */
module MemoryAggregator {
  import opened Wrappers
  import opened PyText
  import opened TotalOrders
  import opened MemoryModels
  import opened MemoryStore
  import opened MemoryCandidates

  /** `render` is the scenario text made from the ordered atoms. */
  datatype Config = Config(env: Env, stable: set<Status>, minAtoms: int, render: (string, seq<Record>) -> string)

  // ---------- loading ----------

  /** The first occurrence of each requested id that names a record of the owner. */
  function Loaded(t: Table, ownerId: string, ids: seq<string>): seq<Record> {
    if ids == [] then []
    else
      var front, id := ids[..|ids| - 1], ids[|ids| - 1];
      if id !in front && id in t && t[id].ownerId == ownerId then Loaded(t, ownerId, front) + [t[id]]
      else Loaded(t, ownerId, front)
  }

  /** The requested ids that name no record of the owner. */
  function Untraceable(t: Table, ownerId: string, ids: seq<string>): set<string> {
    set id | id in ids && !(id in t && t[id].ownerId == ownerId)
  }

  predicate StableAtom(cfg: Config, r: Record) {
    r.status in cfg.stable && r.payload.L1?
  }

  function Stable(cfg: Config, rows: seq<Record>): seq<Record> {
    if rows == [] then []
    else
      var front, r := rows[..|rows| - 1], rows[|rows| - 1];
      if StableAtom(cfg, r) then Stable(cfg, front) + [r] else Stable(cfg, front)
  }

  // ---------- scope ----------

  datatype Scope = Scope(service: Option<string>, alertName: Option<string>, environment: Option<string>)

  predicate Present(s: Option<string>) {
    s.Some? && s.value != ""
  }

  function Services(rows: seq<Record>): set<string> {
    set r | r in rows && r.payload.L1? && Present(r.payload.atom.service) :: r.payload.atom.service.value
  }

  function Alerts(rows: seq<Record>): set<string> {
    set r | r in rows && r.payload.L1? && Present(r.payload.atom.alertName) :: r.payload.atom.alertName.value
  }

  function Environments(rows: seq<Record>): set<string> {
    set r | r in rows && r.payload.L1? && Present(r.payload.atom.environment) :: r.payload.atom.environment.value
  }

  /** `next(iter(s), None)` on a set of at most one element. */
  ghost function Only(s: set<string>): Option<string> {
    if s == {} then None else var x :| x in s; Some(x)
  }

  ghost function ScopeOf(rows: seq<Record>): Option<Scope> {
    if |Services(rows)| > 1 || |Alerts(rows)| > 1 || |Environments(rows)| > 1 then None
    else Some(Scope(Only(Services(rows)), Only(Alerts(rows)), Only(Environments(rows))))
  }

  method ScopeFromAtoms(rows: seq<Record>) returns (scope: Option<Scope>)
    ensures scope == ScopeOf(rows)
  {
    var services, alerts, environments := Services(rows), Alerts(rows), Environments(rows);
    if |services| > 1 || |alerts| > 1 || |environments| > 1 {
      return None;
    }
    var service := First(services);
    var alert := First(alerts);
    var environment := First(environments);
    return Some(Scope(service, alert, environment));
  }

  method First(s: set<string>) returns (r: Option<string>)
    requires |s| <= 1
    ensures r == Only(s)
  {
    if s == {} {
      return None;
    }
    var x :| x in s;
    assert |s - {x}| == 0;
    return Some(x);
  }

  function OrAny(env: Env, s: Option<string>): string {
    var n := NormOpt(env, s);
    if n == "" then "any" else n
  }

  function ScenarioKeyOf(env: Env, ownerId: string, scope: Scope): string {
    "owner=" + env.norm(ownerId) + "|service=" + OrAny(env, scope.service) + "|alert=" + OrAny(env, scope.alertName)
      + "|environment=" + OrAny(env, scope.environment)
  }

  // ---------- atom order ----------

  function Priority(r: Record): int {
    match r.payload
    case L1(atom) =>
      (match atom.atomType
       case RootCause => 0
       case Check => 1
       case Remediation => 2
       case Negative => 3
       case ConfigOrDeploy => 4)
    case _ => 99
  }

  type AtomKey = (int, RowKey)

  function AtomKeyOf(r: Record): AtomKey {
    (Priority(r), KeyOf(r))
  }

  predicate AtomKeyLe(a: AtomKey, b: AtomKey) {
    a.0 < b.0 || (a.0 == b.0 && RowLe(a.1, b.1))
  }

  predicate AtomLe(a: Record, b: Record) {
    AtomKeyLe(AtomKeyOf(a), AtomKeyOf(b))
  }

  /** `_sort_atoms`. */
  function SortAtoms(rows: seq<Record>): seq<Record> {
    Sort(AtomLe, rows)
  }

  function IdsOf(rows: seq<Record>): seq<string> {
    seq(|rows|, k requires 0 <= k < |rows| => rows[k].memoryId)
  }

  /** The payload strips the atom ids and drops blank ones. */
  function PayloadIds(ordered: seq<Record>): seq<string> {
    if ordered == [] then []
    else (if Blank(ordered[0].memoryId) then [] else [Strip(ordered[0].memoryId)]) + PayloadIds(ordered[1..])
  }

  function ScenarioRecord(cfg: Config, ownerId: string, scope: Scope, ordered: seq<Record>): Record {
    var key := ScenarioKeyOf(cfg.env, ownerId, scope);
    Record(
      "l2_scenario_" + cfg.env.digest([key] + Sort(StrLe, IdsOf(ordered))), ownerId, "memory://oncall/l2-scenarios",
      L2(key, PayloadIds(ordered)), cfg.render(key, ordered), "l1-atom-aggregator, NOT reviewed active memory",
      Evidence(map["evidence_type" := "l2_scenario_candidate", "scenario_key" := key], [], []),
      Candidate, None, None, 0, None, 0)
  }

  // ---------- the operation ----------

  /** `Refused`: the payload has no atom ids left, and building it raises. */
  datatype Outcome = Skipped | Refused | DuplicateOf(existing: Record) | Added(scenario: Record)

  ghost function AddUnlessDuplicate(env: Env, t: Table, scenario: Record, now: int): (r: (Table, Outcome))
    requires Keyed(t)
    ensures Keyed(r.0)
  {
    match FirstDuplicate(env, Listing(t, Rivals(scenario)), scenario)
    case Some(existing) => (t, DuplicateOf(existing))
    case None => (Upserted(t, scenario, now), Added(scenario.(updatedAt := now)))
  }

  /** Enough stable atoms of one scope. */
  ghost predicate Enough(cfg: Config, t: Table, ownerId: string, ids: seq<string>) {
    var atoms := Loaded(t, ownerId, ids);
    var stable := Stable(cfg, atoms);
    |atoms| >= cfg.minAtoms && |stable| >= cfg.minAtoms && ScopeOf(stable).Some?
  }

  /** The scenario the requested atoms make, if any. */
  ghost function ScenarioFor(cfg: Config, t: Table, ownerId: string, ids: seq<string>): (made: Option<Record>)
    ensures made.Some? ==> made.value.payload.L2?
  {
    var stable := Stable(cfg, Loaded(t, ownerId, ids));
    if !Enough(cfg, t, ownerId, ids) || PayloadIds(SortAtoms(stable)) == [] then None
    else Some(ScenarioRecord(cfg, ownerId, ScopeOf(stable).value, SortAtoms(stable)))
  }

  ghost function Settled(env: Env, t: Table, made: Option<Record>, enough: bool, now: int)
    : (r: (Table, Outcome))
    requires Keyed(t)
    ensures Keyed(r.0)
  {
    match made
    case None => (t, if enough then Refused else Skipped)
    case Some(scenario) => AddUnlessDuplicate(env, t, scenario, now)
  }

  ghost function Aggregate(cfg: Config, t: Table, ownerId: string, ids: seq<string>, now: int): (r: (Table, Outcome))
    requires Keyed(t)
    ensures Keyed(r.0)
  {
    Settled(cfg.env, t, ScenarioFor(cfg, t, ownerId, ids), Enough(cfg, t, ownerId, ids), now)
  }

  datatype Metrics = Metrics(attempts: nat, success: nat, duplicate: nat, skipped: nat, untraceable: nat)

  class MemoryAggregatorService {
    const store: Store
    const cfg: Config
    var metrics: Metrics
    ghost var refused: nat

    constructor (store: Store, cfg: Config)
      ensures this.store == store && this.cfg == cfg && metrics == Metrics(0, 0, 0, 0, 0) && refused == 0
    {
      this.store, this.cfg, metrics, refused := store, cfg, Metrics(0, 0, 0, 0, 0), 0;
    }

    /** Each attempt ends in exactly one outcome; a refusal is not counted. */
    ghost predicate Accounted()
      reads this
    {
      metrics.attempts == metrics.success + metrics.duplicate + metrics.skipped + refused
    }

    method AggregateFromAtomIds(ids: seq<string>, ownerId: string, now: int) returns (r: Outcome)
      requires Keyed(store.records) && Accounted()
      modifies this, store
      ensures (store.records, r) == Aggregate(cfg, old(store.records), ownerId, ids, now)
      ensures Accounted() && metrics.attempts == old(metrics.attempts) + 1
      ensures metrics.success == old(metrics.success) + if r.Added? then 1 else 0
      ensures metrics.duplicate == old(metrics.duplicate) + if r.DuplicateOf? then 1 else 0
      ensures metrics.skipped == old(metrics.skipped) + if r.Skipped? then 1 else 0
      ensures metrics.untraceable == old(metrics.untraceable) + |Untraceable(old(store.records), ownerId, ids)|
    {
      metrics := metrics.(attempts := metrics.attempts + 1);
      var scenario, raised := BuildScenario(ids, ownerId);
      r := Settle(scenario, raised, now);
    }

    method Settle(scenario: Option<Record>, raised: bool, now: int) returns (r: Outcome)
      requires Keyed(store.records)
      requires (scenario.Some? ==> scenario.value.payload.L2?) && (raised ==> scenario.None?)
      modifies this, store
      ensures (store.records, r) == Settled(cfg.env, old(store.records), scenario, raised, now)
      ensures metrics == old(metrics).(
        success := old(metrics.success) + (if r.Added? then 1 else 0),
        duplicate := old(metrics.duplicate) + (if r.DuplicateOf? then 1 else 0),
        skipped := old(metrics.skipped) + (if r.Skipped? then 1 else 0))
      ensures refused == old(refused) + if r.Refused? then 1 else 0
    {
      if raised {
        refused := refused + 1;
        return Refused;
      }
      if scenario.None? {
        metrics := metrics.(skipped := metrics.skipped + 1);
        return Skipped;
      }
      r := StoreUnlessDuplicate(scenario.value, now);
    }

    method BuildScenario(ids: seq<string>, ownerId: string) returns (scenario: Option<Record>, raised: bool)
      requires Keyed(store.records)
      modifies this`metrics
      ensures scenario == ScenarioFor(cfg, store.records, ownerId, ids)
      ensures raised <==> scenario.None? && Enough(cfg, store.records, ownerId, ids)
      ensures scenario.Some? ==> scenario.value.payload.L2?
      ensures metrics == old(metrics).(
        untraceable := old(metrics.untraceable) + |Untraceable(store.records, ownerId, ids)|)
    {
      var atoms := LoadAtomsById(ids, ownerId);
      if |atoms| < cfg.minAtoms {
        return None, false;
      }
      var stable := Stable(cfg, atoms);
      if |stable| < cfg.minAtoms {
        return None, false;
      }
      var ordered := DedupeByRequestedOrder(store.records, ownerId, stable, ids);
      var scope := ScopeFromAtoms(ordered);
      if scope.None? {
        return None, false;
      }
      if PayloadIds(SortAtoms(ordered)) == [] {
        return None, true;
      }
      return Some(ScenarioRecord(cfg, ownerId, scope.value, SortAtoms(ordered))), false;
    }

    method StoreUnlessDuplicate(scenario: Record, now: int) returns (r: Outcome)
      requires Keyed(store.records) && scenario.payload.L2?
      modifies this`metrics, store
      ensures (store.records, r) == AddUnlessDuplicate(cfg.env, old(store.records), scenario, now)
      ensures r.DuplicateOf? ==> metrics == old(metrics).(duplicate := old(metrics.duplicate) + 1)
      ensures !r.DuplicateOf? ==> r.Added? && metrics == old(metrics).(success := old(metrics.success) + 1)
    {
      var listed := store.ListMemories(Filter(scenario.ownerId, None, Some(L2ScenarioType), None));
      var existing := NotDeprecated(store.records, listed, scenario);
      for i := 0 to |existing|
        invariant FirstDuplicate(cfg.env, existing, scenario) == FirstDuplicate(cfg.env, existing[i..], scenario)
      {
        assert existing[i..][0] == existing[i] && existing[i..][1..] == existing[i + 1..];
        if DedupKey(cfg.env, existing[i]) == DedupKey(cfg.env, scenario) {
          metrics := metrics.(duplicate := metrics.duplicate + 1);
          return DuplicateOf(existing[i]);
        }
      }
      assert existing[|existing|..] == [];
      var stored := store.Upsert(scenario, now);
      metrics := metrics.(success := metrics.success + 1);
      return Added(stored);
    }

    method LoadAtomsById(ids: seq<string>, ownerId: string) returns (atoms: seq<Record>)
      modifies this`metrics
      ensures atoms == Loaded(store.records, ownerId, ids)
      ensures metrics == old(metrics).(
        untraceable := old(metrics.untraceable) + |Untraceable(store.records, ownerId, ids)|)
    {
      atoms := [];
      var seen: set<string> := {};
      for i := 0 to |ids|
        invariant seen == set id | id in ids[..i]
        invariant atoms == Loaded(store.records, ownerId, ids[..i])
        invariant metrics == old(metrics).(
          untraceable := old(metrics.untraceable) + |Untraceable(store.records, ownerId, ids[..i])|)
      {
        assert ids[..i + 1][..i] == ids[..i];
        UntraceableStep(store.records, ownerId, ids, i);
        if ids[i] !in seen {
          seen := seen + {ids[i]};
          var record := store.Get(ids[i]);
          if record.None? || record.value.ownerId != ownerId {
            metrics := metrics.(untraceable := metrics.untraceable + 1);
          } else {
            atoms := atoms + [record.value];
          }
        }
      }
      assert ids[..|ids|] == ids;
    }

    /** The loaded atoms already are in requested order and without repeats. */
    method DedupeByRequestedOrder(ghost t: Table, ownerId: string, atoms: seq<Record>, ids: seq<string>)
      returns (ordered: seq<Record>)
      requires Keyed(t) && atoms == Stable(cfg, Loaded(t, ownerId, ids))
      ensures ordered == atoms
    {
      var lookup: map<string, Record> := map[];
      for k := 0 to |atoms|
        invariant IsLookup(lookup, atoms[..k])
      {
        assert atoms[..k + 1] == atoms[..k] + [atoms[k]];
        lookup := lookup[atoms[k].memoryId := atoms[k]];
      }
      assert atoms[..|atoms|] == atoms;
      ordered := [];
      for i := 0 to |ids|
        invariant ordered == Stable(cfg, Loaded(t, ownerId, ids[..i]))
      {
        assert ids[..i + 1] == ids[..i] + [ids[i]];
        StableStep(cfg, t, ownerId, ids[..i], ids[i]);
        LookupExact(cfg, t, ownerId, ids, lookup, ids[..i], ids[i]);
        if ids[i] in lookup && lookup[ids[i]] !in ordered {
          ordered := ordered + [lookup[ids[i]]];
        }
      }
      assert ids[..|ids|] == ids;
    }
  }

  /** The last record of each id. */
  ghost predicate IsLookup(lookup: map<string, Record>, atoms: seq<Record>) {
    && (forall id :: id in lookup ==> lookup[id] in atoms && lookup[id].memoryId == id)
    && (forall r :: r in atoms ==> r.memoryId in lookup)
  }

  /** Looking up a requested id finds its atom if it is stable, already listed
      exactly when the id was requested before. */
  lemma LookupExact(cfg: Config, t: Table, ownerId: string, ids: seq<string>, lookup: map<string, Record>,
                    front: seq<string>, id: string)
    requires Keyed(t) && IsLookup(lookup, Stable(cfg, Loaded(t, ownerId, ids))) && id in ids
    ensures id in lookup <==> id in t && t[id].ownerId == ownerId && StableAtom(cfg, t[id])
    ensures id in lookup ==> lookup[id] == t[id]
    ensures id in lookup ==> (lookup[id] in Stable(cfg, Loaded(t, ownerId, front)) <==> id in front)
  {
    if id in t {
      StableMembers(cfg, t, ownerId, ids, t[id]);
    }
    if id in lookup {
      StableMembers(cfg, t, ownerId, ids, lookup[id]);
      StableMembers(cfg, t, ownerId, front, lookup[id]);
    }
  }

  lemma UntraceableStep(t: Table, ownerId: string, ids: seq<string>, i: nat)
    requires i < |ids|
    ensures |Untraceable(t, ownerId, ids[..i + 1])| == |Untraceable(t, ownerId, ids[..i])|
      + if ids[i] !in ids[..i] && !(ids[i] in t && t[ids[i]].ownerId == ownerId) then 1 else 0
  {
    var before, next := Untraceable(t, ownerId, ids[..i]), Untraceable(t, ownerId, ids[..i + 1]);
    assert ids[..i + 1] == ids[..i] + [ids[i]];
    if ids[i] !in ids[..i] && !(ids[i] in t && t[ids[i]].ownerId == ownerId) {
      assert next == before + {ids[i]};
    } else {
      assert next == before;
    }
  }

  lemma StableStep(cfg: Config, t: Table, ownerId: string, front: seq<string>, id: string)
    ensures Stable(cfg, Loaded(t, ownerId, front + [id]))
      == Stable(cfg, Loaded(t, ownerId, front))
         + (if id !in front && id in t && t[id].ownerId == ownerId && StableAtom(cfg, t[id]) then [t[id]] else [])
  {
    assert (front + [id])[..|front|] == front;
    if id !in front && id in t && t[id].ownerId == ownerId {
      assert (Loaded(t, ownerId, front) + [t[id]])[..|Loaded(t, ownerId, front)|] == Loaded(t, ownerId, front);
    }
  }

  lemma {:induction false} LoadedMembers(t: Table, ownerId: string, ids: seq<string>, r: Record)
    requires Keyed(t)
    ensures r in Loaded(t, ownerId, ids) <==>
      r.memoryId in ids && r.memoryId in t && t[r.memoryId] == r && r.ownerId == ownerId
  {
    if ids != [] {
      LoadedMembers(t, ownerId, ids[..|ids| - 1], r);
      assert ids == ids[..|ids| - 1] + [ids[|ids| - 1]];
    }
  }

  lemma {:induction false} FilterMembers(cfg: Config, rows: seq<Record>, r: Record)
    ensures r in Stable(cfg, rows) <==> r in rows && StableAtom(cfg, r)
  {
    if rows != [] {
      FilterMembers(cfg, rows[..|rows| - 1], r);
      assert rows == rows[..|rows| - 1] + [rows[|rows| - 1]];
    }
  }

  lemma StableMembers(cfg: Config, t: Table, ownerId: string, ids: seq<string>, r: Record)
    requires Keyed(t)
    ensures r in Stable(cfg, Loaded(t, ownerId, ids)) <==>
      r.memoryId in ids && r.memoryId in t && t[r.memoryId] == r && r.ownerId == ownerId && StableAtom(cfg, r)
  {
    LoadedMembers(t, ownerId, ids, r);
    FilterMembers(cfg, Loaded(t, ownerId, ids), r);
  }

  // ---------- order and repetition do not matter ----------

  lemma {:induction false} LoadedDistinct(t: Table, ownerId: string, ids: seq<string>)
    requires Keyed(t)
    ensures Distinct(Loaded(t, ownerId, ids))
  {
    if ids != [] {
      var front := ids[..|ids| - 1];
      LoadedDistinct(t, ownerId, front);
      forall r | r in Loaded(t, ownerId, front) ensures r.memoryId in front {
        LoadedMembers(t, ownerId, front, r);
      }
    }
  }

  lemma {:induction false} StableDistinct(cfg: Config, rows: seq<Record>)
    requires Distinct(rows)
    ensures Distinct(Stable(cfg, rows))
  {
    if rows != [] {
      var front := rows[..|rows| - 1];
      StableDistinct(cfg, front);
      var kept := Stable(cfg, front);
      forall i | 0 <= i < |kept| ensures kept[i] != rows[|rows| - 1] {
        FilterMembers(cfg, front, kept[i]);
        var k :| 0 <= k < |front| && front[k] == kept[i];
        assert rows[k] == kept[i];
      }
    }
  }

  /** Two requests for the same set of ids load permutations of the same atoms. */
  lemma SameIdsSameAtoms(cfg: Config, t: Table, ownerId: string, a: seq<string>, b: seq<string>)
    requires Keyed(t) && forall id :: id in a <==> id in b
    ensures multiset(Loaded(t, ownerId, a)) == multiset(Loaded(t, ownerId, b))
    ensures multiset(Stable(cfg, Loaded(t, ownerId, a))) == multiset(Stable(cfg, Loaded(t, ownerId, b)))
    ensures Distinct(Stable(cfg, Loaded(t, ownerId, a))) && Distinct(Stable(cfg, Loaded(t, ownerId, b)))
    ensures forall r :: r in Stable(cfg, Loaded(t, ownerId, a)) <==> r in Stable(cfg, Loaded(t, ownerId, b))
  {
    var la, lb := Loaded(t, ownerId, a), Loaded(t, ownerId, b);
    LoadedDistinct(t, ownerId, a);
    LoadedDistinct(t, ownerId, b);
    StableDistinct(cfg, la);
    StableDistinct(cfg, lb);
    forall r ensures r in la <==> r in lb {
      LoadedMembers(t, ownerId, a, r);
      LoadedMembers(t, ownerId, b, r);
    }
    forall r ensures r in Stable(cfg, la) <==> r in Stable(cfg, lb) {
      FilterMembers(cfg, la, r);
      FilterMembers(cfg, lb, r);
    }
    DistinctMultiset(la, lb);
    DistinctMultiset(Stable(cfg, la), Stable(cfg, lb));
  }

  function AtomKeys(rows: seq<Record>): seq<AtomKey> {
    seq(|rows|, k requires 0 <= k < |rows| => AtomKeyOf(rows[k]))
  }

  lemma KeysThen(r: Record, rows: seq<Record>)
    ensures AtomKeys([r] + rows) == [AtomKeyOf(r)] + AtomKeys(rows)
  {
  }

  lemma {:induction false} InsertKeys(r: Record, rows: seq<Record>)
    ensures AtomKeys(Insert(AtomLe, r, rows)) == Insert(AtomKeyLe, AtomKeyOf(r), AtomKeys(rows))
  {
    KeysThen(r, rows);
    if rows != [] {
      assert rows == [rows[0]] + rows[1..];
      KeysThen(rows[0], rows[1..]);
      assert AtomKeys(rows)[1..] == AtomKeys(rows[1..]);
      InsertKeys(r, rows[1..]);
      KeysThen(rows[0], Insert(AtomLe, r, rows[1..]));
    }
  }

  /** Sorting atoms by key sorts their keys. */
  lemma {:induction false} SortKeys(rows: seq<Record>)
    ensures AtomKeys(SortAtoms(rows)) == Sort(AtomKeyLe, AtomKeys(rows))
  {
    if rows != [] {
      SortKeys(rows[1..]);
      InsertKeys(rows[0], SortAtoms(rows[1..]));
      assert AtomKeys(rows)[1..] == AtomKeys(rows[1..]);
    }
  }

  lemma KeysExact(t: Table, rows: seq<Record>)
    requires Distinct(rows) && forall r :: r in rows ==> r.memoryId in t && t[r.memoryId] == r
    ensures Distinct(AtomKeys(rows))
    ensures forall x :: x in AtomKeys(rows) <==> x.1.1 in t && t[x.1.1] in rows && x == AtomKeyOf(t[x.1.1])
  {
    forall x ensures x in AtomKeys(rows) <==> x.1.1 in t && t[x.1.1] in rows && x == AtomKeyOf(t[x.1.1]) {
      if x in AtomKeys(rows) {
        var k :| 0 <= k < |rows| && AtomKeys(rows)[k] == x;
        assert rows[k] in rows;
      }
      if x.1.1 in t && t[x.1.1] in rows && x == AtomKeyOf(t[x.1.1]) {
        var k :| 0 <= k < |rows| && rows[k] == t[x.1.1];
        assert AtomKeys(rows)[k] == x;
      }
    }
    forall i, j | 0 <= i < j < |rows| ensures AtomKeys(rows)[i] != AtomKeys(rows)[j] {
      assert rows[i] in rows && rows[j] in rows && rows[i] != rows[j];
    }
  }

  /** Distinct records of one table sort to the same sequence, however they come. */
  lemma SortAtomsPermutation(t: Table, a: seq<Record>, b: seq<Record>)
    requires Distinct(a) && Distinct(b) && forall r :: r in a <==> r in b
    requires forall r :: r in a ==> r.memoryId in t && t[r.memoryId] == r
    ensures SortAtoms(a) == SortAtoms(b)
  {
    SortKeys(a);
    SortKeys(b);
    KeysExact(t, a);
    KeysExact(t, b);
    DistinctMultiset(AtomKeys(a), AtomKeys(b));
    RowLeIsTotalOrder();
    assert TotalOrder(AtomKeyLe);
    SortPermutation(AtomKeyLe, AtomKeys(a), AtomKeys(b));
    SortElements(AtomLe, a);
    SortElements(AtomLe, b);
    KeysDetermine(t, SortAtoms(a), SortAtoms(b));
  }

  lemma KeysDetermine(t: Table, a: seq<Record>, b: seq<Record>)
    requires AtomKeys(a) == AtomKeys(b)
    requires forall r :: r in multiset(a) || r in multiset(b) ==> r.memoryId in t && t[r.memoryId] == r
    ensures a == b
  {
    assert |AtomKeys(a)| == |a| && |AtomKeys(b)| == |b|;
    forall k | 0 <= k < |a| ensures a[k] == b[k] {
      assert AtomKeys(a)[k] == AtomKeys(b)[k];
      assert a[k] in multiset(a) && b[k] in multiset(b);
    }
  }

  lemma SameScope(a: seq<Record>, b: seq<Record>)
    requires forall r :: r in a <==> r in b
    ensures ScopeOf(a) == ScopeOf(b)
  {
    assert Services(a) == Services(b) && Alerts(a) == Alerts(b) && Environments(a) == Environments(b);
  }

  lemma ScenarioIgnoresOrder(cfg: Config, t: Table, ownerId: string, a: seq<string>, b: seq<string>)
    requires Keyed(t) && forall id :: id in a <==> id in b
    ensures Enough(cfg, t, ownerId, a) <==> Enough(cfg, t, ownerId, b)
    ensures ScenarioFor(cfg, t, ownerId, a) == ScenarioFor(cfg, t, ownerId, b)
  {
    var sa, sb := Stable(cfg, Loaded(t, ownerId, a)), Stable(cfg, Loaded(t, ownerId, b));
    SameIdsSameAtoms(cfg, t, ownerId, a, b);
    SameLengths(Loaded(t, ownerId, a), Loaded(t, ownerId, b));
    SameLengths(sa, sb);
    SameScope(sa, sb);
    forall r | r in sa ensures r.memoryId in t && t[r.memoryId] == r {
      StableMembers(cfg, t, ownerId, a, r);
    }
    SortAtomsPermutation(t, sa, sb);
  }

  lemma SameLengths(a: seq<Record>, b: seq<Record>)
    requires multiset(a) == multiset(b)
    ensures |a| == |b|
  {
    assert |multiset(a)| == |a| && |multiset(b)| == |b|;
  }

  /** Aggregating any permutation or repetition of the same atom ids does the
      same. */
  lemma AggregationIgnoresOrder(cfg: Config, t: Table, ownerId: string, a: seq<string>, b: seq<string>, now: int)
    requires Keyed(t) && forall id :: id in a <==> id in b
    ensures Aggregate(cfg, t, ownerId, a, now) == Aggregate(cfg, t, ownerId, b, now)
  {
    ScenarioIgnoresOrder(cfg, t, ownerId, a, b);
  }

  // ---------- aggregating again ----------

  /** The rows without the one of this id. */
  function Without(rows: seq<Record>, id: string): seq<Record> {
    if rows == [] then []
    else
      var front, r := rows[..|rows| - 1], rows[|rows| - 1];
      if r.memoryId == id then Without(front, id) else Without(front, id) + [r]
  }

  lemma {:induction false} WithoutExact(rows: seq<Record>, id: string)
    ensures forall r :: r in Without(rows, id) <==> r in rows && r.memoryId != id
    ensures (forall r :: r in rows ==> r.memoryId != id) ==> Without(rows, id) == rows
  {
    if rows != [] {
      WithoutExact(rows[..|rows| - 1], id);
      assert rows == rows[..|rows| - 1] + [rows[|rows| - 1]];
    }
  }

  lemma WithoutStep(rows: seq<Record>, r: Record, id: string)
    ensures Without(rows + [r], id) == if r.memoryId == id then Without(rows, id) else Without(rows, id) + [r]
  {
    assert (rows + [r])[..|rows|] == rows;
  }

  /** Storing a record that is no atom takes its id from the stable atoms. */
  lemma {:induction false} StableAfterStore(cfg: Config, t: Table, ownerId: string, ids: seq<string>, r: Record,
                                            now: int)
    requires Keyed(t) && !r.payload.L1?
    ensures Stable(cfg, Loaded(Upserted(t, r, now), ownerId, ids))
         == Without(Stable(cfg, Loaded(t, ownerId, ids)), r.memoryId)
  {
    if ids != [] {
      var front, id := ids[..|ids| - 1], ids[|ids| - 1];
      assert ids == front + [id];
      StableAfterStore(cfg, t, ownerId, front, r, now);
      StableStep(cfg, t, ownerId, front, id);
      StableStep(cfg, Upserted(t, r, now), ownerId, front, id);
      if id in t {
        WithoutStep(Stable(cfg, Loaded(t, ownerId, front)), t[id], r.memoryId);
      }
    }
  }

  lemma {:induction false} StableIsShorter(cfg: Config, rows: seq<Record>)
    ensures |Stable(cfg, rows)| <= |rows|
  {
    if rows != [] {
      StableIsShorter(cfg, rows[..|rows| - 1]);
    }
  }

  lemma {:induction false} PayloadAppend(rows: seq<Record>, r: Record)
    ensures |PayloadIds(rows + [r])| == |PayloadIds(rows)| + if Blank(r.memoryId) then 0 else 1
  {
    if rows == [] {
      assert rows + [r] == [r];
    } else {
      assert (rows + [r])[1..] == rows[1..] + [r];
      PayloadAppend(rows[1..], r);
    }
  }

  lemma {:induction false} PayloadInsert(r: Record, rows: seq<Record>)
    ensures |PayloadIds(Insert(AtomLe, r, rows))| == |PayloadIds(rows)| + if Blank(r.memoryId) then 0 else 1
  {
    if rows != [] {
      PayloadInsert(r, rows[1..]);
    }
    assert ([r] + rows)[1..] == rows;
  }

  /** Sorting keeps the number of ids in the payload. */
  lemma {:induction false} PayloadSort(rows: seq<Record>)
    ensures |PayloadIds(SortAtoms(rows))| == |PayloadIds(rows)|
  {
    if rows != [] {
      PayloadSort(rows[1..]);
      PayloadInsert(rows[0], SortAtoms(rows[1..]));
    }
  }

  /** Losing a row loses its id. */
  lemma {:induction false} PayloadWithout(rows: seq<Record>, id: string)
    ensures |PayloadIds(Without(rows, id))| <= |PayloadIds(rows)|
    ensures !Blank(id) && (exists r :: r in rows && r.memoryId == id) ==>
      |PayloadIds(Without(rows, id))| < |PayloadIds(rows)|
  {
    if rows != [] {
      var front, r := rows[..|rows| - 1], rows[|rows| - 1];
      assert rows == front + [r];
      PayloadWithout(front, id);
      PayloadAppend(front, r);
      PayloadAppend(Without(front, id), r);
    }
  }

  lemma DedupLengths(env: Env, a: Record, b: Record)
    requires a.payload.L2? && b.payload.L2? && DedupKey(env, a) == DedupKey(env, b)
    ensures |a.payload.l1AtomIds| == |b.payload.l1AtomIds|
  {
    var x, y := NormEach(env, a.payload.l1AtomIds), NormEach(env, b.payload.l1AtomIds);
    SortElements(StrLe, x);
    SortElements(StrLe, y);
    assert NormSorted(env, a.payload.l1AtomIds) == NormSorted(env, b.payload.l1AtomIds);
    assert multiset(x) == multiset(y) && |multiset(x)| == |x| && |multiset(y)| == |y|;
  }

  lemma ScenarioIdNotBlank(cfg: Config, ownerId: string, scope: Scope, ordered: seq<Record>)
    ensures !Blank(ScenarioRecord(cfg, ownerId, scope, ordered).memoryId)
  {
    StripKeepsStart(ScenarioRecord(cfg, ownerId, scope, ordered).memoryId);
  }

  /** A scenario just added is reported as the duplicate the next time, for any order
      or repetition of its atom ids, exactly when it was stored over none of its own
      atoms. */
  lemma SecondAggregationIsDuplicate(cfg: Config, t: Table, ownerId: string, a: seq<string>, b: seq<string>, now: int,
                                     later: int)
    requires Keyed(t) && forall id :: id in a <==> id in b
    ensures var (next, out) := Aggregate(cfg, t, ownerId, a, now);
      out.Added? ==>
        (Aggregate(cfg, next, ownerId, b, later) == (next, DuplicateOf(out.scenario)) <==>
         forall x :: x in Stable(cfg, Loaded(t, ownerId, a)) ==> x.memoryId != out.scenario.memoryId)
  {
    var (next, out) := Aggregate(cfg, t, ownerId, a, now);
    AggregationIgnoresOrder(cfg, next, ownerId, a, b, later);
    if out.Added? {
      var made := ScenarioFor(cfg, t, ownerId, a).value;
      StableAfterStore(cfg, t, ownerId, a, made, now);
      if forall x :: x in Stable(cfg, Loaded(t, ownerId, a)) ==> x.memoryId != made.memoryId {
        AgainDuplicate(cfg, t, ownerId, a, made, now, later);
      } else {
        FewerIds(cfg, t, ownerId, a);
        FewerIdsNoDuplicate(cfg, next, ownerId, a, out.scenario, later);
      }
    }
  }

  lemma AgainDuplicate(cfg: Config, t: Table, ownerId: string, ids: seq<string>, made: Record, now: int, later: int)
    requires Keyed(t) && ScenarioFor(cfg, t, ownerId, ids) == Some(made) && made.status == Candidate
    requires FirstDuplicate(cfg.env, Listing(t, Rivals(made)), made) == None
    requires forall x :: x in Stable(cfg, Loaded(t, ownerId, ids)) ==> x.memoryId != made.memoryId
    ensures var next := Upserted(t, made, now);
      Aggregate(cfg, next, ownerId, ids, later) == (next, DuplicateOf(made.(updatedAt := now)))
  {
    StableAfterStore(cfg, t, ownerId, ids, made, now);
    WithoutExact(Stable(cfg, Loaded(t, ownerId, ids)), made.memoryId);
    SameAtomsSameScenario(cfg, t, Upserted(t, made, now), ownerId, ids);
    DuplicateIsTheScenario(cfg.env, t, made, now);
  }

  lemma SameAtomsSameScenario(cfg: Config, t: Table, next: Table, ownerId: string, ids: seq<string>)
    requires ScenarioFor(cfg, t, ownerId, ids).Some?
    requires Stable(cfg, Loaded(next, ownerId, ids)) == Stable(cfg, Loaded(t, ownerId, ids))
    ensures ScenarioFor(cfg, next, ownerId, ids) == ScenarioFor(cfg, t, ownerId, ids)
  {
    StableIsShorter(cfg, Loaded(next, ownerId, ids));
  }

  /** Stored over one of its own atoms, a scenario leaves fewer ids for the next. */
  lemma FewerIds(cfg: Config, t: Table, ownerId: string, ids: seq<string>)
    requires ScenarioFor(cfg, t, ownerId, ids).Some?
    requires exists x :: x in Stable(cfg, Loaded(t, ownerId, ids))
                         && x.memoryId == ScenarioFor(cfg, t, ownerId, ids).value.memoryId
    ensures var stable, made := Stable(cfg, Loaded(t, ownerId, ids)), ScenarioFor(cfg, t, ownerId, ids).value;
      |PayloadIds(SortAtoms(Without(stable, made.memoryId)))| < |made.payload.l1AtomIds|
  {
    var stable := Stable(cfg, Loaded(t, ownerId, ids));
    var id := ScenarioFor(cfg, t, ownerId, ids).value.memoryId;
    ScenarioIdNotBlank(cfg, ownerId, ScopeOf(stable).value, SortAtoms(stable));
    PayloadWithout(stable, id);
    PayloadSort(stable);
    PayloadSort(Without(stable, id));
  }

  lemma FewerIdsNoDuplicate(cfg: Config, t: Table, ownerId: string, ids: seq<string>, stored: Record, now: int)
    requires Keyed(t) && stored.payload.L2?
    requires |PayloadIds(SortAtoms(Stable(cfg, Loaded(t, ownerId, ids))))| < |stored.payload.l1AtomIds|
    ensures Aggregate(cfg, t, ownerId, ids, now).1 != DuplicateOf(stored)
  {
    var made := ScenarioFor(cfg, t, ownerId, ids);
    if made.Some? {
      NoFirstDuplicate(cfg.env, Listing(t, Rivals(made.value)), made.value);
      if DedupKey(cfg.env, stored) == DedupKey(cfg.env, made.value) {
        DedupLengths(cfg.env, stored, made.value);
      }
    }
  }

  lemma DuplicateIsTheScenario(env: Env, t: Table, scenario: Record, now: int)
    requires Keyed(t) && scenario.payload.L2? && scenario.status == Candidate
    requires FirstDuplicate(env, Listing(t, Rivals(scenario)), scenario) == None
    ensures var next := Upserted(t, scenario, now);
      FirstDuplicate(env, Listing(next, Rivals(scenario)), scenario) == Some(scenario.(updatedAt := now))
  {
    var next := Upserted(t, scenario, now);
    var stored := scenario.(updatedAt := now);
    var before, rows := Listing(t, Rivals(scenario)), Listing(next, Rivals(scenario));
    NoFirstDuplicate(env, before, scenario);
    NoFirstDuplicate(env, rows, scenario);
    assert next[scenario.memoryId] == stored && stored in rows;
    assert DedupKey(env, stored) == DedupKey(env, scenario);
    forall r | r in rows ensures r == stored || r in before {
      var k :| 0 <= k < |rows| && rows[k] == r;
      if r.memoryId != scenario.memoryId {
        assert t[r.memoryId] == r;
      }
    }
  }
}
