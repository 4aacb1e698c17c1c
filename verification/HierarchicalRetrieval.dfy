/** Layered memory retrieval: scenarios, then uncovered atoms, then legacy memory. */
module HierarchicalRetrieval {
  import opened Wrappers
  import opened PyText
  import opened TotalOrders
  import opened MemoryModels
  import opened MemoryStore

  datatype Hit = Hit(record: Record, score: real)

  /** What the model leaves open: the relevance of a record to the query, the
      confidence read from it, and the legacy penalty for stale records. */
  datatype Scorer = Scorer(
    score: (Record, string) -> real,
    confidence: Record -> real,
    penalised: (Record, string, int) -> real)

  datatype Config = Config(minL2Hits: nat, minL1Hits: nat, l2MinConfidence: real)

  /** What the constructor accepts. */
  predicate ValidConfig(cfg: Config) {
    cfg.minL2Hits > 0 && cfg.minL1Hits > 0 && 0.0 <= cfg.l2MinConfidence <= 1.0
  }

  const L2_NAMESPACE := "memory://oncall/l2-scenarios"
  const L1_NAMESPACE := "memory://oncall/l1-atoms"
  const LEGACY_NAMESPACES := ["memory://oncall/alert-patterns", "memory://oncall/plan-templates"]
  const LEGACY_TYPES := [AlertPatternType, PlanTemplateType]

  // ---------- ranking one layer ----------

  /** Score, confidence and time stamp descending, then id. */
  type RankKey = (real, real, int, string)

  predicate KeyLe(a: RankKey, b: RankKey) {
    if a.0 != b.0 then a.0 > b.0
    else if a.1 != b.1 then a.1 > b.1
    else if a.2 != b.2 then a.2 > b.2
    else StrLe(a.3, b.3)
  }

  function By(key: Hit -> RankKey): (Hit, Hit) -> bool {
    (a: Hit, b: Hit) => KeyLe(key(a), key(b))
  }

  lemma ByIsPreorder(key: Hit -> RankKey)
    ensures TotalPreorder(By(key))
  {
    StrLeIsTotalOrder();
  }

  /** What a layer searches, how it scores, and how it ranks. */
  datatype Layer = Layer(rows: Filter, wants: Record -> bool, final: Record -> real, key: Hit -> RankKey)

  function LayerOf(s: Scorer, query: string, ownerId: string, memoryType: MemoryType, namespace: string): Layer {
    Layer(
      Filter(ownerId, None, Some(memoryType), Some(Active)),
      (r: Record) => r.namespace == namespace && s.score(r, query) > 0.0,
      (r: Record) => s.score(r, query),
      (h: Hit) => (h.score, s.confidence(h.record), h.record.updatedAt, h.record.memoryId))
  }

  /** The legacy service ranks older records first and may lower a score after
      the test for a match. */
  function LegacyLayer(s: Scorer, query: string, ownerId: string, now: int): Layer {
    Layer(
      Filter(ownerId, None, None, Some(Active)),
      (r: Record) => r.namespace in LEGACY_NAMESPACES && TypeOf(r) in LEGACY_TYPES && s.score(r, query) > 0.0,
      (r: Record) => s.penalised(r, query, now),
      (h: Hit) => (h.score, 0.0, -h.record.updatedAt, h.record.memoryId))
  }

  function Scored(l: Layer, rows: seq<Record>): seq<Hit> {
    if rows == [] then []
    else
      var last := rows[|rows| - 1];
      Scored(l, rows[..|rows| - 1]) + if l.wants(last) then [Hit(last, l.final(last))] else []
  }

  /** All hits of a layer in rank order. */
  ghost function Ranking(t: Table, l: Layer): seq<Hit>
    requires Keyed(t)
  {
    Sort(By(l.key), Scored(l, Listing(t, Matches(l.rows))))
  }

  ghost predicate DistinctIds(hits: seq<Hit>) {
    forall j, k :: 0 <= j < k < |hits| ==> hits[j].record.memoryId != hits[k].record.memoryId
  }

  /** A hit of the layer: a stored record it searches and wants, with its score. */
  ghost predicate IsHit(t: Table, l: Layer, h: Hit) {
    && h.record.memoryId in t && t[h.record.memoryId] == h.record
    && Matches(l.rows)(h.record) && l.wants(h.record) && h.score == l.final(h.record)
  }

  lemma {:induction false} ScoredExact(l: Layer, rows: seq<Record>)
    requires forall j, k :: 0 <= j < k < |rows| ==> rows[j].memoryId != rows[k].memoryId
    ensures DistinctIds(Scored(l, rows))
    ensures forall h :: h in Scored(l, rows) <==> h.record in rows && l.wants(h.record) && h.score == l.final(h.record)
  {
    if rows != [] {
      var n := |rows| - 1;
      ScoredExact(l, rows[..n]);
      assert rows == rows[..n] + [rows[n]];
      var front := Scored(l, rows[..n]);
      forall k | 0 <= k < |front| ensures front[k].record.memoryId != rows[n].memoryId {
        assert front[k] in front;
      }
    }
  }

  lemma {:induction false} InsertHit(le: (Hit, Hit) -> bool, h: Hit, hits: seq<Hit>)
    requires DistinctIds(hits) && forall x :: x in hits ==> x.record.memoryId != h.record.memoryId
    ensures DistinctIds(Insert(le, h, hits))
  {
    if hits != [] && !le(h, hits[0]) {
      InsertHit(le, h, hits[1..]);
      InsertElements(le, h, hits[1..]);
      var rest := Insert(le, h, hits[1..]);
      forall k | 0 <= k < |rest| ensures rest[k].record.memoryId != hits[0].record.memoryId {
        assert rest[k] in rest && hits[0] in hits;
      }
    }
  }

  lemma {:induction false} SortHits(le: (Hit, Hit) -> bool, hits: seq<Hit>)
    requires DistinctIds(hits)
    ensures DistinctIds(Sort(le, hits))
    ensures forall h :: h in Sort(le, hits) <==> h in hits
  {
    if hits != [] {
      SortHits(le, hits[1..]);
      InsertElements(le, hits[0], Sort(le, hits[1..]));
      InsertHit(le, hits[0], Sort(le, hits[1..]));
    }
  }

  /** The ranking holds every hit of the layer once, in order. */
  lemma RankingExact(t: Table, l: Layer)
    requires Keyed(t)
    ensures Sorted(By(l.key), Ranking(t, l)) && DistinctIds(Ranking(t, l))
    ensures forall h :: h in Ranking(t, l) <==> IsHit(t, l, h)
  {
    var rows := Listing(t, Matches(l.rows));
    ScoredExact(l, rows);
    ByIsPreorder(l.key);
    SortSorts(By(l.key), Scored(l, rows));
    SortHits(By(l.key), Scored(l, rows));
    assert forall r :: r in rows <==> r.memoryId in t && t[r.memoryId] == r && Matches(l.rows)(r);
  }

  // ---------- coverage ----------

  function AtomIds(h: Hit): set<string> {
    match h.record.payload
    case L2(_, ids) => set id | id in ids && !Blank(id)
    case _ => {}
  }

  function Covered(l2: seq<Hit>): set<string> {
    if l2 == [] then {} else Covered(l2[..|l2| - 1]) + AtomIds(l2[|l2| - 1])
  }

  lemma {:induction false} CoveredExact(l2: seq<Hit>, id: string)
    ensures id in Covered(l2) <==> exists k :: 0 <= k < |l2| && id in AtomIds(l2[k])
  {
    if l2 != [] {
      CoveredExact(l2[..|l2| - 1], id);
    }
  }

  function Uncovered(hits: seq<Hit>, covered: set<string>): seq<Hit> {
    if hits == [] then []
    else Uncovered(hits[..|hits| - 1], covered)
         + if hits[|hits| - 1].record.memoryId in covered then [] else [hits[|hits| - 1]]
  }

  lemma {:induction false} UncoveredExact(hits: seq<Hit>, covered: set<string>)
    ensures forall h :: h in Uncovered(hits, covered) <==> h in hits && h.record.memoryId !in covered
  {
    if hits != [] {
      var n := |hits| - 1;
      UncoveredExact(hits[..n], covered);
      assert hits == hits[..n] + [hits[n]];
    }
  }

  lemma {:induction false} UncoveredSorted(le: (Hit, Hit) -> bool, hits: seq<Hit>, covered: set<string>)
    requires Sorted(le, hits) && DistinctIds(hits)
    ensures Sorted(le, Uncovered(hits, covered)) && DistinctIds(Uncovered(hits, covered))
  {
    if hits != [] {
      var n := |hits| - 1;
      UncoveredSorted(le, hits[..n], covered);
      UncoveredExact(hits[..n], covered);
      var front := Uncovered(hits[..n], covered);
      forall k | 0 <= k < |front| ensures le(front[k], hits[n]) && front[k].record.memoryId != hits[n].record.memoryId {
        assert front[k] in hits[..n];
      }
    }
  }

  lemma {:induction false} UncoveredPrefix(hits: seq<Hit>, covered: set<string>, n: nat)
    requires n <= |hits|
    ensures Uncovered(hits[..n], covered) <= Uncovered(hits, covered)
    decreases |hits|
  {
    if n < |hits| {
      assert hits[..|hits| - 1][..n] == hits[..n];
      UncoveredPrefix(hits[..|hits| - 1], covered, n);
    } else {
      assert hits[..n] == hits;
    }
  }

  /** Covered hits are no more than covered ids. */
  lemma {:induction false} UncoveredCount(hits: seq<Hit>, covered: set<string>)
    requires DistinctIds(hits)
    ensures |Uncovered(hits, covered)| + |covered| >= |hits|
    decreases |hits|
  {
    if hits != [] {
      var n := |hits| - 1;
      var id := hits[n].record.memoryId;
      if id in covered {
        UncoveredCount(hits[..n], covered - {id});
        SameUncovered(hits[..n], covered, id);
      } else {
        UncoveredCount(hits[..n], covered);
      }
    }
  }

  lemma {:induction false} SameUncovered(hits: seq<Hit>, covered: set<string>, id: string)
    requires forall k :: 0 <= k < |hits| ==> hits[k].record.memoryId != id
    ensures Uncovered(hits, covered - {id}) == Uncovered(hits, covered)
  {
    if hits != [] {
      SameUncovered(hits[..|hits| - 1], covered, id);
    }
  }

  /** Fetching `k` more than are covered, dropping the covered and keeping `k`
      gives the first `k` uncovered of the whole ranking. */
  lemma OverFetch(hits: seq<Hit>, covered: set<string>, k: nat)
    requires DistinctIds(hits)
    ensures Take(Uncovered(Take(hits, k + |covered|), covered), k) == Take(Uncovered(hits, covered), k)
  {
    var fetched := Take(hits, k + |covered|);
    UncoveredPrefix(hits, covered, |fetched|);
    UncoveredCount(fetched, covered);
  }

  // ---------- retrieval ----------

  datatype Layers = Layers(l2: seq<Hit>, l1: seq<Hit>, legacy: seq<Hit>, toL1: bool, toLegacy: bool)

  function MaxConfidence(s: Scorer, hits: seq<Hit>): real {
    if hits == [] then 0.0
    else if |hits| == 1 then s.confidence(hits[0].record)
    else
      var rest := MaxConfidence(s, hits[..|hits| - 1]);
      var last := s.confidence(hits[|hits| - 1].record);
      if last > rest then last else rest
  }

  predicate FallsBack(cfg: Config, s: Scorer, l2: seq<Hit>) {
    |l2| < cfg.minL2Hits || MaxConfidence(s, l2) < cfg.l2MinConfidence
  }

  lemma {:induction false} MaxConfidenceReaches(s: Scorer, hits: seq<Hit>, limit: real)
    requires hits != []
    ensures MaxConfidence(s, hits) >= limit <==> exists k :: 0 <= k < |hits| && s.confidence(hits[k].record) >= limit
  {
    if |hits| > 1 {
      MaxConfidenceReaches(s, hits[..|hits| - 1], limit);
    }
  }

  /** Retrieval stops at the scenarios exactly when there are enough of them and
      one is confident enough. */
  lemma FallbackExact(cfg: Config, s: Scorer, l2: seq<Hit>)
    requires ValidConfig(cfg)
    ensures FallsBack(cfg, s, l2) <==>
      |l2| < cfg.minL2Hits || forall k :: 0 <= k < |l2| ==> s.confidence(l2[k].record) < cfg.l2MinConfidence
  {
    if l2 != [] {
      MaxConfidenceReaches(s, l2, cfg.l2MinConfidence);
    }
  }

  datatype Request = Request(query: string, ownerId: string, topKL2: int, topKL1: int, topKLegacy: int)

  predicate ValidRequest(r: Request) {
    !Blank(r.query) && r.topKL2 > 0 && r.topKL1 > 0 && r.topKLegacy > 0
  }

  function ScenarioLayer(s: Scorer, r: Request): Layer {
    LayerOf(s, r.query, r.ownerId, L2ScenarioType, L2_NAMESPACE)
  }

  ghost function Scenarios(t: Table, s: Scorer, r: Request): seq<Hit>
    requires Keyed(t)
  {
    Take(Ranking(t, ScenarioLayer(s, r)), r.topKL2)
  }

  function AtomLayer(s: Scorer, r: Request): Layer {
    LayerOf(s, r.query, r.ownerId, L1AtomType, L1_NAMESPACE)
  }

  /** What is kept of a fetch made larger by the number of covered ids. */
  ghost function Kept(t: Table, l: Layer, covered: set<string>, k: nat): seq<Hit>
    requires Keyed(t)
  {
    Take(Uncovered(Take(Ranking(t, l), k + |covered|), covered), k)
  }

  ghost function Atoms(t: Table, s: Scorer, r: Request): seq<Hit>
    requires Keyed(t) && r.topKL1 > 0
  {
    Kept(t, AtomLayer(s, r), Covered(Scenarios(t, s, r)), r.topKL1)
  }

  ghost function Legacy(t: Table, s: Scorer, r: Request, now: int): seq<Hit>
    requires Keyed(t)
  {
    Take(Ranking(t, LegacyLayer(s, r.query, r.ownerId, now)), r.topKLegacy)
  }

  ghost function Retrieved(t: Table, cfg: Config, s: Scorer, r: Request, now: int): Layers
    requires Keyed(t) && r.topKL1 > 0
  {
    var l2 := Scenarios(t, s, r);
    var toL1 := FallsBack(cfg, s, l2);
    var l1 := if toL1 then Atoms(t, s, r) else [];
    var toLegacy := toL1 && |l1| < cfg.minL1Hits;
    Layers(l2, l1, if toLegacy then Legacy(t, s, r, now) else [], toL1, toLegacy)
  }

  /** Blank queries and non-positive limits raise; so does a blank owner that
      gets as far as the legacy query. */
  ghost predicate Succeeds(t: Table, cfg: Config, s: Scorer, r: Request, now: int)
    requires Keyed(t)
  {
    ValidRequest(r) && (Retrieved(t, cfg, s, r, now).toLegacy ==> !Blank(r.ownerId))
  }

  /** Accesses recorded for the hits, in order. */
  function AccessedAll(t: Table, hits: seq<Hit>, now: int): Table {
    if hits == [] then t
    else Accessed(AccessedAll(t, hits[..|hits| - 1], now), hits[|hits| - 1].record.memoryId, now)
  }

  class HierarchicalRetrievalService {
    const store: Store
    const scorer: Scorer
    const cfg: Config
    var l2HitCount: nat
    var l1FallbackCount: nat
    var legacyFallbackCount: nat

    constructor (store: Store, scorer: Scorer, cfg: Config)
      requires ValidConfig(cfg)
      ensures this.store == store && this.scorer == scorer && this.cfg == cfg
      ensures l2HitCount == l1FallbackCount == legacyFallbackCount == 0
    {
      this.store, this.scorer, this.cfg := store, scorer, cfg;
      l2HitCount, l1FallbackCount, legacyFallbackCount := 0, 0, 0;
    }

    method RetrieveLayer(l: Layer, topK: int) returns (hits: seq<Hit>)
      requires Keyed(store.records)
      ensures hits == Take(Ranking(store.records, l), topK)
    {
      var rows := store.ListMemories(l.rows);
      hits := [];
      for i := 0 to |rows|
        invariant hits == Scored(l, rows[..i])
      {
        assert rows[..i + 1][..i] == rows[..i];
        if l.wants(rows[i]) {
          hits := hits + [Hit(rows[i], l.final(rows[i]))];
        }
      }
      assert rows[..|rows|] == rows;
      hits := Take(Sort(By(l.key), hits), topK);
    }

    method CoveredL1AtomIds(l2: seq<Hit>) returns (covered: set<string>)
      ensures covered == Covered(l2)
    {
      covered := {};
      for i := 0 to |l2|
        invariant covered == Covered(l2[..i])
      {
        assert l2[..i + 1][..i] == l2[..i];
        covered := covered + AtomIds(l2[i]);
      }
      assert l2[..|l2|] == l2;
    }

    /** Keeps the first `topK` uncovered hits. */
    method KeepUncovered(fetched: seq<Hit>, covered: set<string>, topK: nat) returns (kept: seq<Hit>)
      ensures kept == Take(Uncovered(fetched, covered), topK)
    {
      kept := [];
      for i := 0 to |fetched|
        invariant kept == Take(Uncovered(fetched[..i], covered), topK)
      {
        assert fetched[..i + 1][..i] == fetched[..i];
        if fetched[i].record.memoryId !in covered && |kept| < topK {
          kept := kept + [fetched[i]];
        }
      }
      assert fetched[..|fetched|] == fetched;
    }

    method FetchUncovered(l: Layer, covered: set<string>, topK: nat) returns (kept: seq<Hit>)
      requires Keyed(store.records)
      ensures kept == Kept(store.records, l, covered, topK)
    {
      var fetched := RetrieveLayer(l, topK + |covered|);
      kept := KeepUncovered(fetched, covered, topK);
    }

    method RetrieveAtoms(r: Request, l2: seq<Hit>) returns (l1: seq<Hit>)
      requires Keyed(store.records) && r.topKL1 > 0 && l2 == Scenarios(store.records, scorer, r)
      ensures l1 == Atoms(store.records, scorer, r)
    {
      var covered := CoveredL1AtomIds(l2);
      l1 := FetchUncovered(AtomLayer(scorer, r), covered, r.topKL1);
    }

    method RetrieveLegacy(r: Request, now: int) returns (result: Result<seq<Hit>>)
      requires Keyed(store.records) && ValidRequest(r)
      modifies store
      ensures result.Ok? <==> !Blank(r.ownerId)
      ensures result.Raised? ==> store.records == old(store.records)
      ensures result.Ok? ==>
        && result.value == Legacy(old(store.records), scorer, r, now)
        && store.records == AccessedAll(old(store.records), result.value, now)
    {
      if Blank(r.ownerId) {
        return Raised("value is required");
      }
      var hits := RetrieveLayer(LegacyLayer(scorer, r.query, r.ownerId, now), r.topKLegacy);
      for i := 0 to |hits|
        invariant store.records == AccessedAll(old(store.records), hits[..i], now)
      {
        assert hits[..i + 1][..i] == hits[..i];
        var _ := store.RecordAccess(hits[i].record.memoryId, now);
      }
      assert hits[..|hits|] == hits;
      return Ok(hits);
    }

    method RetrieveHierarchical(r: Request, now: int) returns (result: Result<Layers>)
      requires Keyed(store.records)
      modifies this, store
      ensures result.Ok? <==> Succeeds(old(store.records), cfg, scorer, r, now)
      ensures result.Ok? ==>
        && result.value == Retrieved(old(store.records), cfg, scorer, r, now)
        && store.records == AccessedAll(old(store.records), result.value.legacy, now)
        && l2HitCount == old(l2HitCount) + |result.value.l2|
        && l1FallbackCount == old(l1FallbackCount) + (if result.value.toL1 then 1 else 0)
        && legacyFallbackCount == old(legacyFallbackCount) + (if result.value.toLegacy then 1 else 0)
      ensures result.Raised? ==>
        && store.records == old(store.records)
        && l2HitCount == old(l2HitCount) && l1FallbackCount == old(l1FallbackCount)
        && legacyFallbackCount == old(legacyFallbackCount)
    {
      var error := Validate(r);
      if error.Some? {
        return Raised(error.value);
      }
      var l2 := RetrieveLayer(ScenarioLayer(scorer, r), r.topKL2);
      var toL1 := FallsBack(cfg, scorer, l2);
      var l1: seq<Hit>, legacy: seq<Hit> := [], [];
      if toL1 {
        l1 := RetrieveAtoms(r, l2);
      }
      var toLegacy := toL1 && |l1| < cfg.minL1Hits;
      if toLegacy {
        var response := RetrieveLegacy(r, now);
        if response.Raised? {
          return Raised(response.reason);
        }
        legacy := response.value;
      }
      l2HitCount := l2HitCount + |l2|;
      l1FallbackCount := l1FallbackCount + (if toL1 then 1 else 0);
      legacyFallbackCount := legacyFallbackCount + (if toLegacy then 1 else 0);
      return Ok(Layers(l2, l1, legacy, toL1, toLegacy));
    }

    method Validate(r: Request) returns (error: Option<string>)
      ensures error.None? <==> ValidRequest(r)
    {
      if Blank(r.query) {
        return Some("query is required");
      }
      if r.topKL2 <= 0 {
        return Some("top_k_l2 must be positive");
      }
      if r.topKL1 <= 0 {
        return Some("top_k_l1 must be positive");
      }
      if r.topKLegacy <= 0 {
        return Some("top_k_legacy must be positive");
      }
      return None;
    }
  }

  // ---------- what a retrieval returns ----------

  /** `top` are the best `k` hits outside `excluded`: none repeated, every other
      one ranks after each of them, and none is left out while there is room. */
  ghost predicate AreBest(t: Table, l: Layer, excluded: set<string>, k: nat, top: seq<Hit>) {
    && DistinctIds(top) && Sorted(By(l.key), top)
    && (forall h :: h in top ==> IsHit(t, l, h) && h.record.memoryId !in excluded)
    && (forall h, x :: h in top && LeftOut(t, l, excluded, top, x) ==> By(l.key)(h, x))
    && (forall x :: LeftOut(t, l, excluded, top, x) ==> |top| == k)
  }

  ghost predicate LeftOut(t: Table, l: Layer, excluded: set<string>, top: seq<Hit>, x: Hit) {
    IsHit(t, l, x) && x.record.memoryId !in excluded && x !in top
  }

  lemma TakeIsBest(t: Table, l: Layer, excluded: set<string>, k: nat, all: seq<Hit>)
    requires Sorted(By(l.key), all) && DistinctIds(all)
    requires forall h :: h in all <==> IsHit(t, l, h) && h.record.memoryId !in excluded
    ensures AreBest(t, l, excluded, k, Take(all, k))
  {
    var top := Take(all, k);
    forall h, x | h in top && x in all && x !in top ensures By(l.key)(h, x) {
      var i :| 0 <= i < |top| && top[i] == h;
      var j :| 0 <= j < |all| && all[j] == x;
    }
  }

  /** The bounded fetch loses nothing: what is kept are the best of all hits
      outside the covered ids. */
  lemma KeptAreBest(t: Table, l: Layer, covered: set<string>, k: nat)
    requires Keyed(t)
    ensures Kept(t, l, covered, k) == Take(Uncovered(Ranking(t, l), covered), k)
    ensures AreBest(t, l, covered, k, Kept(t, l, covered, k))
  {
    RankingExact(t, l);
    OverFetch(Ranking(t, l), covered, k);
    UncoveredSorted(By(l.key), Ranking(t, l), covered);
    UncoveredExact(Ranking(t, l), covered);
    TakeIsBest(t, l, covered, k, Uncovered(Ranking(t, l), covered));
  }

  /** The returned scenarios, atoms and legacy memories are each the best of their
      layer, the atoms among those that no returned scenario covers. */
  lemma LayersAreBest(t: Table, s: Scorer, r: Request, now: int)
    requires Keyed(t) && ValidRequest(r)
    ensures AreBest(t, ScenarioLayer(s, r), {}, r.topKL2, Scenarios(t, s, r))
    ensures AreBest(t, AtomLayer(s, r), Covered(Scenarios(t, s, r)), r.topKL1, Atoms(t, s, r))
    ensures AreBest(t, LegacyLayer(s, r.query, r.ownerId, now), {}, r.topKLegacy, Legacy(t, s, r, now))
  {
    TopAreBest(t, ScenarioLayer(s, r), r.topKL2);
    KeptAreBest(t, AtomLayer(s, r), Covered(Scenarios(t, s, r)), r.topKL1);
    TopAreBest(t, LegacyLayer(s, r.query, r.ownerId, now), r.topKLegacy);
  }

  lemma TopAreBest(t: Table, l: Layer, k: nat)
    requires Keyed(t)
    ensures AreBest(t, l, {}, k, Take(Ranking(t, l), k))
  {
    RankingExact(t, l);
    TakeIsBest(t, l, {}, k, Ranking(t, l));
  }

  /** Every matching atom that no returned scenario covers, best first. */
  ghost function UncoveredAtoms(t: Table, s: Scorer, r: Request): seq<Hit>
    requires Keyed(t)
  {
    Uncovered(Ranking(t, AtomLayer(s, r)), Covered(Scenarios(t, s, r)))
  }

  /** No returned atom is covered by a returned scenario. */
  lemma NoCoveredAtom(t: Table, cfg: Config, s: Scorer, r: Request, now: int)
    requires Keyed(t) && ValidRequest(r)
    ensures var got := Retrieved(t, cfg, s, r, now);
      forall a, b :: a in got.l1 && b in got.l2 ==> a.record.memoryId !in AtomIds(b)
  {
    var got := Retrieved(t, cfg, s, r, now);
    LayersAreBest(t, s, r, now);
    forall a, b | a in got.l1 && b in got.l2 ensures a.record.memoryId !in AtomIds(b) {
      CoveredExact(got.l2, a.record.memoryId);
    }
  }

  /** Once retrieval falls back to atoms, it falls back to legacy memory exactly
      when the uncovered matches, up to the limit, are too few. */
  lemma LegacyFallbackExact(t: Table, cfg: Config, s: Scorer, r: Request, now: int)
    requires Keyed(t) && ValidRequest(r)
    ensures var got := Retrieved(t, cfg, s, r, now);
      var matches := |UncoveredAtoms(t, s, r)|;
      got.toL1 ==> (got.toLegacy <==> (if r.topKL1 < matches then r.topKL1 else matches) < cfg.minL1Hits)
  {
    KeptAreBest(t, AtomLayer(s, r), Covered(Scenarios(t, s, r)), r.topKL1);
  }

  /** Distinct records of the owner, active and matching the query, of the types. */
  ghost predicate Owned(t: Table, s: Scorer, r: Request, types: seq<MemoryType>, hits: seq<Hit>) {
    && DistinctIds(hits)
    && forall h :: h in hits ==>
         var m := h.record;
         && m.memoryId in t && t[m.memoryId] == m
         && m.ownerId == r.ownerId && m.status == Active && TypeOf(m) in types && s.score(m, r.query) > 0.0
  }

  /** The layer only searches the owner's matching records of the types. */
  ghost predicate Searches(s: Scorer, r: Request, types: seq<MemoryType>, l: Layer) {
    forall m: Record :: Matches(l.rows)(m) && l.wants(m) ==>
      m.ownerId == r.ownerId && m.status == Active && TypeOf(m) in types && s.score(m, r.query) > 0.0
  }

  lemma BestAreOwned(t: Table, s: Scorer, r: Request, types: seq<MemoryType>, l: Layer, excluded: set<string>, k: nat, top: seq<Hit>)
    requires Searches(s, r, types, l) && AreBest(t, l, excluded, k, top)
    ensures Owned(t, s, r, types, top)
  {
  }

  lemma LayersAreOwned(t: Table, cfg: Config, s: Scorer, r: Request, now: int)
    requires Keyed(t) && ValidRequest(r)
    ensures var got := Retrieved(t, cfg, s, r, now);
      && Owned(t, s, r, [L2ScenarioType], got.l2)
      && Owned(t, s, r, [L1AtomType], got.l1)
      && Owned(t, s, r, LEGACY_TYPES, got.legacy)
  {
    var got := Retrieved(t, cfg, s, r, now);
    LayersAreBest(t, s, r, now);
    BestAreOwned(t, s, r, [L2ScenarioType], ScenarioLayer(s, r), {}, r.topKL2, got.l2);
    if got.toL1 {
      BestAreOwned(t, s, r, [L1AtomType], AtomLayer(s, r), Covered(got.l2), r.topKL1, got.l1);
    }
    if got.toLegacy {
      BestAreOwned(t, s, r, LEGACY_TYPES, LegacyLayer(s, r.query, r.ownerId, now), {}, r.topKLegacy, got.legacy);
    }
  }

  /** Ids are distinct across all three layers, and every hit is an active record
      of the owner that matches the query. */
  lemma LayersAreDistinct(t: Table, cfg: Config, s: Scorer, r: Request, now: int)
    requires Keyed(t) && ValidRequest(r)
    ensures var got := Retrieved(t, cfg, s, r, now);
      Owned(t, s, r, [L2ScenarioType] + [L1AtomType] + LEGACY_TYPES, got.l2 + got.l1 + got.legacy)
  {
    var got := Retrieved(t, cfg, s, r, now);
    LayersAreOwned(t, cfg, s, r, now);
    Apart(t, s, r, [L2ScenarioType], got.l2, [L1AtomType], got.l1);
    Apart(t, s, r, [L2ScenarioType] + [L1AtomType], got.l2 + got.l1, LEGACY_TYPES, got.legacy);
  }

  lemma Apart(t: Table, s: Scorer, r: Request, xs: seq<MemoryType>, a: seq<Hit>, ys: seq<MemoryType>, b: seq<Hit>)
    requires Owned(t, s, r, xs, a) && Owned(t, s, r, ys, b)
    requires forall x :: x in xs ==> x !in ys
    ensures Owned(t, s, r, xs + ys, a + b)
  {
    assert forall x :: x in xs + ys <==> x in xs || x in ys;
    forall i, j | 0 <= i < |a| && 0 <= j < |b| ensures a[i].record.memoryId != b[j].record.memoryId {
      assert a[i] in a && b[j] in b;
    }
  }

  // ---------- accesses ----------

  ghost predicate HitAt(hits: seq<Hit>, id: string) {
    exists k :: 0 <= k < |hits| && hits[k].record.memoryId == id
  }

  lemma HitAtLast(hits: seq<Hit>, id: string)
    requires hits != []
    ensures HitAt(hits, id) <==> HitAt(hits[..|hits| - 1], id) || id == hits[|hits| - 1].record.memoryId
  {
    var front := hits[..|hits| - 1];
    if HitAt(front, id) {
      var k :| 0 <= k < |front| && front[k].record.memoryId == id;
      assert hits[k] == front[k];
    }
    if k :| 0 <= k < |hits| && hits[k].record.memoryId == id {
      assert k < |front| ==> front[k] == hits[k];
    }
  }

  /** The table with one access counted for each hit, and nothing else changed. */
  ghost predicate CountsAccesses(t: Table, next: Table, hits: seq<Hit>, now: int) {
    && next.Keys == t.Keys
    && forall id :: id in t ==>
         next[id] == if HitAt(hits, id) then t[id].(lastAccessedAt := Some(now), accessCount := t[id].accessCount + 1)
                     else t[id]
  }

  lemma {:induction false} AccessedAllExact(t: Table, hits: seq<Hit>, now: int)
    requires DistinctIds(hits) && forall k :: 0 <= k < |hits| ==> hits[k].record.memoryId in t
    ensures CountsAccesses(t, AccessedAll(t, hits, now), hits, now)
  {
    if hits != [] {
      var front, last := hits[..|hits| - 1], hits[|hits| - 1].record.memoryId;
      AccessedAllExact(t, front, now);
      assert !HitAt(front, last);
      forall id ensures HitAt(hits, id) <==> HitAt(front, id) || id == last {
        HitAtLast(hits, id);
      }
    }
  }

  /** A retrieval counts one access for each returned legacy memory and changes
      nothing else. */
  lemma RetrievalCountsAccesses(t: Table, cfg: Config, s: Scorer, r: Request, now: int)
    requires Keyed(t) && ValidRequest(r)
    ensures var legacy := Retrieved(t, cfg, s, r, now).legacy;
      CountsAccesses(t, AccessedAll(t, legacy, now), legacy, now)
  {
    var legacy := Retrieved(t, cfg, s, r, now).legacy;
    LayersAreOwned(t, cfg, s, r, now);
    assert forall k :: 0 <= k < |legacy| ==> legacy[k] in legacy;
    AccessedAllExact(t, legacy, now);
  }

  // ---------- the order, in numbers ----------

  /** A hit of higher score comes first; at equal score the more confident, then the
      newer, then the one with the smaller id. */
  ghost predicate Outranks(s: Scorer, a: Hit, b: Hit) {
    var x, y := s.confidence(a.record), s.confidence(b.record);
    && a.score >= b.score
    && (a.score == b.score ==> x >= y)
    && (a.score == b.score && x == y ==> a.record.updatedAt >= b.record.updatedAt)
    && (a.score == b.score && x == y && a.record.updatedAt == b.record.updatedAt ==>
          StrLe(a.record.memoryId, b.record.memoryId))
  }

  /** Legacy memory: at equal score the older comes first, then the smaller id. */
  ghost predicate OutranksLegacy(a: Hit, b: Hit) {
    && a.score >= b.score
    && (a.score == b.score ==> a.record.updatedAt <= b.record.updatedAt)
    && (a.score == b.score && a.record.updatedAt == b.record.updatedAt ==>
          StrLe(a.record.memoryId, b.record.memoryId))
  }

  /** A stored record of the owner that is active and matches the query. */
  ghost predicate Matching(t: Table, s: Scorer, r: Request, m: Record) {
    && m.memoryId in t && t[m.memoryId] == m
    && m.ownerId == r.ownerId && m.status == Active && s.score(m, r.query) > 0.0
  }

  ghost predicate MatchingScenario(t: Table, s: Scorer, r: Request, m: Record) {
    Matching(t, s, r, m) && m.payload.L2? && m.namespace == "memory://oncall/l2-scenarios"
  }

  ghost predicate MatchingAtom(t: Table, s: Scorer, r: Request, m: Record) {
    Matching(t, s, r, m) && m.payload.L1? && m.namespace == "memory://oncall/l1-atoms"
  }

  ghost predicate MatchingLegacy(t: Table, s: Scorer, r: Request, m: Record) {
    && Matching(t, s, r, m)
    && (m.payload.AlertPattern? || m.payload.PlanTemplate?)
    && (m.namespace == "memory://oncall/alert-patterns" || m.namespace == "memory://oncall/plan-templates")
  }

  /** A returned scenario covers the atom: it lists its id. */
  ghost predicate CoveredBy(l2: seq<Hit>, m: Record) {
    !Blank(m.memoryId) && exists h :: h in l2 && h.record.payload.L2? && m.memoryId in h.record.payload.l1AtomIds
  }

  lemma ByOutranks(s: Scorer, query: string, owner: string, kind: MemoryType, namespace: string, a: Hit, b: Hit)
    requires By(LayerOf(s, query, owner, kind, namespace).key)(a, b)
    ensures Outranks(s, a, b)
  {
    var key := LayerOf(s, query, owner, kind, namespace).key;
    assert KeyLe(key(a), key(b));
    assert key(a) == (a.score, s.confidence(a.record), a.record.updatedAt, a.record.memoryId);
    assert key(b) == (b.score, s.confidence(b.record), b.record.updatedAt, b.record.memoryId);
  }

  lemma ByOutranksLegacy(s: Scorer, query: string, owner: string, now: int, a: Hit, b: Hit)
    requires By(LegacyLayer(s, query, owner, now).key)(a, b)
    ensures OutranksLegacy(a, b)
  {
    var key := LegacyLayer(s, query, owner, now).key;
    assert KeyLe(key(a), key(b));
    assert key(a) == (a.score, 0.0, -a.record.updatedAt, a.record.memoryId);
    assert key(b) == (b.score, 0.0, -b.record.updatedAt, b.record.memoryId);
  }

  lemma ScenarioHits(t: Table, s: Scorer, r: Request, h: Hit)
    ensures IsHit(t, ScenarioLayer(s, r), h) <==> MatchingScenario(t, s, r, h.record) && h.score == s.score(h.record, r.query)
  {
  }

  lemma AtomHits(t: Table, s: Scorer, r: Request, h: Hit)
    ensures IsHit(t, AtomLayer(s, r), h) <==> MatchingAtom(t, s, r, h.record) && h.score == s.score(h.record, r.query)
  {
  }

  lemma LegacyHits(t: Table, s: Scorer, r: Request, now: int, h: Hit)
    ensures IsHit(t, LegacyLayer(s, r.query, r.ownerId, now), h) <==>
            MatchingLegacy(t, s, r, h.record) && h.score == s.penalised(h.record, r.query, now)
  {
    var m := h.record;
    assert LEGACY_NAMESPACES[0] == "memory://oncall/alert-patterns";
    assert LEGACY_NAMESPACES[1] == "memory://oncall/plan-templates";
    assert m.namespace in LEGACY_NAMESPACES <==> m.namespace == LEGACY_NAMESPACES[0] || m.namespace == LEGACY_NAMESPACES[1];
    assert TypeOf(m) in LEGACY_TYPES <==> m.payload.AlertPattern? || m.payload.PlanTemplate?;
  }

  /** The returned scenarios are matching ones with their scores, each outranks those
      after it and every matching one left out, and none is left out while there is
      room. */
  lemma ScenariosInOrder(t: Table, s: Scorer, r: Request)
    requires Keyed(t) && ValidRequest(r)
    ensures var top := Scenarios(t, s, r);
      && |top| <= r.topKL2
      && (forall h :: h in top ==> MatchingScenario(t, s, r, h.record) && h.score == s.score(h.record, r.query))
      && (forall i, j :: 0 <= i < j < |top| ==> Outranks(s, top[i], top[j]))
      && (forall m :: MatchingScenario(t, s, r, m) && Hit(m, s.score(m, r.query)) !in top ==>
            |top| == r.topKL2 && forall h :: h in top ==> Outranks(s, h, Hit(m, s.score(m, r.query))))
  {
    var top, l := Scenarios(t, s, r), ScenarioLayer(s, r);
    TopAreBest(t, l, r.topKL2);
    forall h | h in top ensures MatchingScenario(t, s, r, h.record) && h.score == s.score(h.record, r.query) {
      ScenarioHits(t, s, r, h);
    }
    forall i, j | 0 <= i < j < |top| ensures Outranks(s, top[i], top[j]) {
      ByOutranks(s, r.query, r.ownerId, L2ScenarioType, L2_NAMESPACE, top[i], top[j]);
    }
    forall m | MatchingScenario(t, s, r, m) && Hit(m, s.score(m, r.query)) !in top
      ensures |top| == r.topKL2 && forall h :: h in top ==> Outranks(s, h, Hit(m, s.score(m, r.query)))
    {
      var x := Hit(m, s.score(m, r.query));
      ScenarioHits(t, s, r, x);
      assert LeftOut(t, l, {}, top, x);
      forall h | h in top ensures Outranks(s, h, x) {
        ByOutranks(s, r.query, r.ownerId, L2ScenarioType, L2_NAMESPACE, h, x);
      }
    }
  }

  lemma CoveredByExact(l2: seq<Hit>, m: Record)
    ensures m.memoryId in Covered(l2) <==> CoveredBy(l2, m)
  {
    CoveredExact(l2, m.memoryId);
    if CoveredBy(l2, m) {
      var h :| h in l2 && h.record.payload.L2? && m.memoryId in h.record.payload.l1AtomIds;
      var k :| 0 <= k < |l2| && l2[k] == h;
    }
  }

  /** So are the returned atoms, among those that no returned scenario lists. */
  lemma AtomsInOrder(t: Table, s: Scorer, r: Request)
    requires Keyed(t) && ValidRequest(r)
    ensures var top, l2 := Atoms(t, s, r), Scenarios(t, s, r);
      && |top| <= r.topKL1
      && (forall h :: h in top ==>
            MatchingAtom(t, s, r, h.record) && !CoveredBy(l2, h.record) && h.score == s.score(h.record, r.query))
      && (forall i, j :: 0 <= i < j < |top| ==> Outranks(s, top[i], top[j]))
      && (forall m :: MatchingAtom(t, s, r, m) && !CoveredBy(l2, m) && Hit(m, s.score(m, r.query)) !in top ==>
            |top| == r.topKL1 && forall h :: h in top ==> Outranks(s, h, Hit(m, s.score(m, r.query))))
  {
    var top, l2, l := Atoms(t, s, r), Scenarios(t, s, r), AtomLayer(s, r);
    KeptAreBest(t, l, Covered(l2), r.topKL1);
    forall h | h in top
      ensures MatchingAtom(t, s, r, h.record) && !CoveredBy(l2, h.record) && h.score == s.score(h.record, r.query)
    {
      AtomHits(t, s, r, h);
      CoveredByExact(l2, h.record);
    }
    forall i, j | 0 <= i < j < |top| ensures Outranks(s, top[i], top[j]) {
      ByOutranks(s, r.query, r.ownerId, L1AtomType, L1_NAMESPACE, top[i], top[j]);
    }
    forall m | MatchingAtom(t, s, r, m) && !CoveredBy(l2, m) && Hit(m, s.score(m, r.query)) !in top
      ensures |top| == r.topKL1 && forall h :: h in top ==> Outranks(s, h, Hit(m, s.score(m, r.query)))
    {
      var x := Hit(m, s.score(m, r.query));
      AtomHits(t, s, r, x);
      CoveredByExact(l2, m);
      assert LeftOut(t, l, Covered(l2), top, x);
      forall h | h in top ensures Outranks(s, h, x) {
        ByOutranks(s, r.query, r.ownerId, L1AtomType, L1_NAMESPACE, h, x);
      }
    }
  }

  /** And the legacy memories, in the order of their service. */
  lemma LegacyInOrder(t: Table, s: Scorer, r: Request, now: int)
    requires Keyed(t) && ValidRequest(r)
    ensures var top := Legacy(t, s, r, now);
      && |top| <= r.topKLegacy
      && (forall h :: h in top ==> MatchingLegacy(t, s, r, h.record) && h.score == s.penalised(h.record, r.query, now))
      && (forall i, j :: 0 <= i < j < |top| ==> OutranksLegacy(top[i], top[j]))
      && (forall m :: MatchingLegacy(t, s, r, m) && Hit(m, s.penalised(m, r.query, now)) !in top ==>
            |top| == r.topKLegacy
            && forall h :: h in top ==> OutranksLegacy(h, Hit(m, s.penalised(m, r.query, now))))
  {
    var top, l := Legacy(t, s, r, now), LegacyLayer(s, r.query, r.ownerId, now);
    TopAreBest(t, l, r.topKLegacy);
    forall h | h in top ensures MatchingLegacy(t, s, r, h.record) && h.score == s.penalised(h.record, r.query, now) {
      LegacyHits(t, s, r, now, h);
    }
    forall i, j | 0 <= i < j < |top| ensures OutranksLegacy(top[i], top[j]) {
      ByOutranksLegacy(s, r.query, r.ownerId, now, top[i], top[j]);
    }
    forall m | MatchingLegacy(t, s, r, m) && Hit(m, s.penalised(m, r.query, now)) !in top
      ensures |top| == r.topKLegacy && forall h :: h in top ==> OutranksLegacy(h, Hit(m, s.penalised(m, r.query, now)))
    {
      var x := Hit(m, s.penalised(m, r.query, now));
      LegacyHits(t, s, r, now, x);
      assert LeftOut(t, l, {}, top, x);
      forall h | h in top ensures OutranksLegacy(h, x) {
        ByOutranksLegacy(s, r.query, r.ownerId, now, h, x);
      }
    }
  }
}
