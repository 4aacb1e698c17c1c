/** Reciprocal rank fusion of ranked lists, in exact arithmetic. */
module RrfFusion {
  import opened Wrappers
  import opened TotalOrders

  datatype Hit = Hit(id: string, content: string, score: real)

  datatype Ranked = Ranked(source: string, hits: seq<Hit>)

  /** The rank and score a source gave an id. */
  datatype Place = Place(rank: nat, score: real)

  /** A fused result: the first hit seen for the id, with its fused score and its
      place in each source. */
  datatype Fused = Fused(hit: Hit, score: real, places: map<string, Place>)

  // ---------- the score ----------

  function Share(c: nat, rank: nat): real
    requires rank >= 1
  {
    1.0 / (c + rank) as real
  }

  /** What one list adds to an id; `rank` is the rank of its first hit. */
  function ListScore(c: nat, hits: seq<Hit>, rank: nat, id: string): real
    requires rank >= 1
    decreases |hits|
  {
    if hits == [] then 0.0
    else (if hits[0].id == id then Share(c, rank) else 0.0) + ListScore(c, hits[1..], rank + 1, id)
  }

  function Score(c: nat, lists: seq<Ranked>, id: string): real {
    if lists == [] then 0.0 else Score(c, lists[..|lists| - 1], id) + ListScore(c, lists[|lists| - 1].hits, 1, id)
  }

  predicate InHits(hits: seq<Hit>, id: string) {
    exists k :: 0 <= k < |hits| && hits[k].id == id
  }

  predicate InLists(lists: seq<Ranked>, id: string) {
    exists i :: 0 <= i < |lists| && InHits(lists[i].hits, id)
  }

  /** All ids, and the first hit of each. */
  function AllIds(lists: seq<Ranked>): set<string> {
    set i, k | 0 <= i < |lists| && 0 <= k < |lists[i].hits| :: lists[i].hits[k].id
  }

  function FirstIn(hits: seq<Hit>, id: string): Option<Hit> {
    if hits == [] then None else if hits[0].id == id then Some(hits[0]) else FirstIn(hits[1..], id)
  }

  function FirstHit(lists: seq<Ranked>, id: string): Option<Hit> {
    if lists == [] then None
    else
      var earlier := FirstHit(lists[..|lists| - 1], id);
      if earlier.Some? then earlier else FirstIn(lists[|lists| - 1].hits, id)
  }

  /** The last place of an id in one list. */
  function PlaceIn(hits: seq<Hit>, id: string): Option<Place> {
    if hits == [] then None
    else
      var last := hits[|hits| - 1];
      if last.id == id then Some(Place(|hits|, last.score)) else PlaceIn(hits[..|hits| - 1], id)
  }

  function Noted(places: map<string, Place>, source: string, hits: seq<Hit>, id: string): map<string, Place> {
    var place := PlaceIn(hits, id);
    if place.Some? then places[source := place.value] else places
  }

  /** The places of an id by source; a later list of the same source wins. */
  function PlacesOf(lists: seq<Ranked>, id: string): map<string, Place> {
    if lists == [] then map[]
    else
      var last := lists[|lists| - 1];
      Noted(PlacesOf(lists[..|lists| - 1], id), last.source, last.hits, id)
  }

  lemma {:induction false} PlacedIffHit(hits: seq<Hit>, id: string)
    ensures PlaceIn(hits, id).Some? <==> InHits(hits, id)
    ensures PlaceIn(hits, id).Some? ==>
      var place := PlaceIn(hits, id).value;
      1 <= place.rank <= |hits| && hits[place.rank - 1].id == id && hits[place.rank - 1].score == place.score
  {
    if hits != [] && hits[|hits| - 1].id != id {
      var front := hits[..|hits| - 1];
      PlacedIffHit(front, id);
      if InHits(front, id) {
        var k :| 0 <= k < |front| && front[k].id == id;
        assert hits[k].id == id;
      }
      if InHits(hits, id) {
        var k :| 0 <= k < |hits| && hits[k].id == id;
        assert front[k].id == id;
      }
    }
  }

  /** A fused result tells a place for exactly the sources that found the id, and
      with one list per source the place it has there. */
  lemma {:induction false} PlacesExact(lists: seq<Ranked>, id: string, i: nat)
    requires i < |lists| && forall j :: i < j < |lists| ==> lists[j].source != lists[i].source || !InHits(lists[j].hits, id)
    requires InHits(lists[i].hits, id)
    ensures lists[i].source in PlacesOf(lists, id)
    ensures var place := PlacesOf(lists, id)[lists[i].source];
      && 1 <= place.rank <= |lists[i].hits|
      && lists[i].hits[place.rank - 1].id == id && lists[i].hits[place.rank - 1].score == place.score
  {
    var n := |lists| - 1;
    PlacedIffHit(lists[n].hits, id);
    if i < n {
      PlacesExact(lists[..n], id, i);
    }
  }

  // ---------- the order ----------

  type Entry = (string, real)

  /** `key=lambda item: (-item[1], item[0])`. */
  predicate EntryLe(a: Entry, b: Entry) {
    a.1 > b.1 || (a.1 == b.1 && StrLe(a.0, b.0))
  }

  lemma EntryLeIsTotalOrder()
    ensures TotalOrder(EntryLe)
  {
    StrLeIsTotalOrder();
  }

  /** The entries of all ids in final order. */
  ghost predicate IsRanking(c: nat, lists: seq<Ranked>, entries: seq<Entry>) {
    && Sorted(EntryLe, entries)
    && Distinct(entries)
    && forall e :: e in entries <==> e.0 in AllIds(lists) && e.1 == Score(c, lists, e.0)
  }

  lemma RankingUnique(c: nat, lists: seq<Ranked>, other: seq<Ranked>, a: seq<Entry>, b: seq<Entry>)
    requires AllIds(lists) == AllIds(other) && forall id :: Score(c, lists, id) == Score(c, other, id)
    requires IsRanking(c, lists, a) && IsRanking(c, other, b)
    ensures a == b
  {
    EntryLeIsTotalOrder();
    DistinctMultiset(a, b);
    SortedUnique(EntryLe, a, b);
  }

  // ---------- fusion ----------

  /** The dictionaries hold exactly the scores and first hits of `lists`, plus the
      first `k` hits of `hits`. */
  ghost predicate Accumulated(c: nat, lists: seq<Ranked>, hits: seq<Hit>, scores: map<string, real>,
                              firsts: map<string, Hit>) {
    forall id :: AccumulatedAt(c, lists, hits, scores, firsts, id)
  }

  ghost predicate AccumulatedAt(c: nat, lists: seq<Ranked>, hits: seq<Hit>, scores: map<string, real>,
                                firsts: map<string, Hit>, id: string) {
    && (id in scores <==> id in firsts)
    && (id in scores <==> InLists(lists, id) || InHits(hits, id))
    && (id in scores ==> scores[id] == Score(c, lists, id) + ListScore(c, hits, 1, id))
    && (id in firsts ==>
          if InLists(lists, id) then FirstHit(lists, id) == Some(firsts[id]) else FirstIn(hits, id) == Some(firsts[id]))
  }

  /** The fused results for the entries: score, id and first hit. */
  ghost predicate IsFused(lists: seq<Ranked>, entries: seq<Entry>, fused: seq<Fused>) {
    && |fused| == |entries|
    && forall k :: 0 <= k < |fused| ==>
         && fused[k].score == entries[k].1
         && FirstHit(lists, entries[k].0) == Some(fused[k].hit)
         && fused[k].hit.id == entries[k].0
         && fused[k].places == PlacesOf(lists, entries[k].0)
  }

  /** The places noted so far: those of `lists`, and of the hits of the current one. */
  ghost predicate Placed(lists: seq<Ranked>, source: string, hits: seq<Hit>, places: map<string, map<string, Place>>) {
    forall id :: PlacesAt(places, id) == Noted(PlacesOf(lists, id), source, hits, id)
  }

  function PlacesAt(places: map<string, map<string, Place>>, id: string): map<string, Place> {
    if id in places then places[id] else map[]
  }

  lemma PlaceNext(lists: seq<Ranked>, source: string, hits: seq<Hit>, k: nat, places: map<string, map<string, Place>>)
    requires k < |hits| && Placed(lists, source, hits[..k], places)
    ensures var at := PlacesAt(places, hits[k].id)[source := Place(k + 1, hits[k].score)];
      Placed(lists, source, hits[..k + 1], places[hits[k].id := at])
  {
    var at := PlacesAt(places, hits[k].id)[source := Place(k + 1, hits[k].score)];
    var next := places[hits[k].id := at];
    assert hits[..k + 1][..k] == hits[..k] && hits[..k + 1][k] == hits[k];
    forall id ensures PlacesAt(next, id) == Noted(PlacesOf(lists, id), source, hits[..k + 1], id) {
      assert PlacesAt(places, id) == Noted(PlacesOf(lists, id), source, hits[..k], id);
    }
  }

  lemma PlaceListDone(lists: seq<Ranked>, i: nat, other: string, places: map<string, map<string, Place>>)
    requires i < |lists| && Placed(lists[..i], lists[i].source, lists[i].hits, places)
    ensures Placed(lists[..i + 1], other, [], places)
  {
    var next := lists[..i + 1];
    assert next[..i] == lists[..i] && next[i] == lists[i];
    forall id ensures PlacesAt(places, id) == Noted(PlacesOf(next, id), other, [], id) {
      assert PlacesAt(places, id) == Noted(PlacesOf(lists[..i], id), lists[i].source, lists[i].hits, id);
    }
  }

  method Fuse(rankConstant: nat, lists: seq<Ranked>, topK: int) returns (fused: seq<Fused>)
    ensures exists ranking: seq<Entry> ::
              && IsRanking(rankConstant, lists, ranking)
              && IsFused(lists, Take(ranking, topK), fused)
  {
    var c := rankConstant;
    var scores: map<string, real> := map[];
    var firsts: map<string, Hit> := map[];
    var places: map<string, map<string, Place>> := map[];
    for i := 0 to |lists|
      invariant Accumulated(c, lists[..i], [], scores, firsts)
      invariant Placed(lists[..i], "", [], places)
    {
      NothingPlaced(lists[..i], lists[i].source, places);
      scores, firsts, places := Accumulate(c, lists[..i], lists[i], scores, firsts, places);
      CloseList(c, lists, i, scores, firsts);
      PlaceListDone(lists, i, "", places);
    }
    assert lists[..|lists|] == lists;
    Complete(c, lists, scores, firsts);
    var entries := SortEntries(scores);
    assert IsRanking(c, lists, entries);
    fused := Represent(lists, Take(entries, topK), firsts, places);
  }

  /** The last loop: each entry with its representative. */
  method Represent(ghost lists: seq<Ranked>, top: seq<Entry>, firsts: map<string, Hit>,
                   places: map<string, map<string, Place>>) returns (fused: seq<Fused>)
    requires Placed(lists, "", [], places)
    requires forall e :: e in top ==> e.0 in firsts && FirstHit(lists, e.0) == Some(firsts[e.0])
    ensures IsFused(lists, top, fused)
  {
    fused := [];
    for k := 0 to |top|
      invariant IsFused(lists, top[..k], fused)
    {
      FirstHitHasId(lists, top[k].0);
      assert PlacesAt(places, top[k].0) == PlacesOf(lists, top[k].0);
      fused := fused + [Fused(firsts[top[k].0], top[k].1, PlacesAt(places, top[k].0))];
    }
    assert top[..|top|] == top;
  }

  lemma NothingPlaced(lists: seq<Ranked>, source: string, places: map<string, map<string, Place>>)
    requires Placed(lists, "", [], places)
    ensures Placed(lists, source, [], places)
  {
    forall id ensures PlacesAt(places, id) == Noted(PlacesOf(lists, id), source, [], id) {
      assert PlacesAt(places, id) == Noted(PlacesOf(lists, id), "", [], id);
    }
  }

  /** The inner loop: one list's hits into the dictionaries. */
  method Accumulate(c: nat, ghost lists: seq<Ranked>, list: Ranked, scores0: map<string, real>, firsts0: map<string, Hit>,
                    places0: map<string, map<string, Place>>)
    returns (scores: map<string, real>, firsts: map<string, Hit>, places: map<string, map<string, Place>>)
    requires Accumulated(c, lists, [], scores0, firsts0) && Placed(lists, list.source, [], places0)
    ensures Accumulated(c, lists, list.hits, scores, firsts) && Placed(lists, list.source, list.hits, places)
  {
    scores, firsts, places := scores0, firsts0, places0;
    var hits := list.hits;
    for k := 0 to |hits|
      invariant Accumulated(c, lists, hits[..k], scores, firsts)
      invariant Placed(lists, list.source, hits[..k], places)
    {
      AddHit(c, lists, hits, k, scores, firsts);
      PlaceNext(lists, list.source, hits, k, places);
      var hit := hits[k];
      scores := scores[hit.id := (if hit.id in scores then scores[hit.id] else 0.0) + Share(c, k + 1)];
      if hit.id !in firsts {
        firsts := firsts[hit.id := hit];
      }
      places := places[hit.id := PlacesAt(places, hit.id)[list.source := Place(k + 1, hit.score)]];
    }
    assert hits[..|hits|] == hits;
  }

  method SortEntries(scores: map<string, real>) returns (entries: seq<Entry>)
    ensures Sorted(EntryLe, entries) && Distinct(entries)
    ensures forall e :: e in entries <==> e.0 in scores && e.1 == scores[e.0]
  {
    entries := [];
    var left := scores.Keys;
    EntryLeIsTotalOrder();
    while left != {}
      invariant left <= scores.Keys
      invariant Sorted(EntryLe, entries) && Distinct(entries)
      invariant forall e :: e in entries <==> e.0 in scores && e.0 !in left && e.1 == scores[e.0]
      decreases |left|
    {
      var id :| id in left;
      var e := (id, scores[id]);
      InsertSorts(EntryLe, e, entries);
      InsertElements(EntryLe, e, entries);
      InsertDistinct(e, entries);
      entries := Insert(EntryLe, e, entries);
      left := left - {id};
    }
  }

  lemma {:induction false} InsertDistinct(e: Entry, entries: seq<Entry>)
    requires Distinct(entries) && e !in entries
    ensures Distinct(Insert(EntryLe, e, entries))
  {
    if entries != [] && !EntryLe(e, entries[0]) {
      InsertDistinct(e, entries[1..]);
      InsertElements(EntryLe, e, entries[1..]);
      assert entries[0] !in entries[1..];
    }
  }

  lemma {:induction false} ListScoreAppend(c: nat, hits: seq<Hit>, rank: nat, hit: Hit, id: string)
    requires rank >= 1
    ensures ListScore(c, hits + [hit], rank, id)
      == ListScore(c, hits, rank, id) + if hit.id == id then Share(c, rank + |hits|) else 0.0
    decreases |hits|
  {
    if hits == [] {
      assert ([] + [hit])[1..] == [];
    } else {
      assert (hits + [hit])[1..] == hits[1..] + [hit];
      ListScoreAppend(c, hits[1..], rank + 1, hit, id);
    }
  }

  lemma {:induction false} FirstInAppend(hits: seq<Hit>, hit: Hit, id: string)
    ensures FirstIn(hits + [hit], id)
      == if FirstIn(hits, id).Some? then FirstIn(hits, id) else if hit.id == id then Some(hit) else None
    ensures FirstIn(hits, id).Some? <==> InHits(hits, id)
    ensures FirstIn(hits, id).Some? ==> FirstIn(hits, id).value.id == id
  {
    if hits != [] {
      assert (hits + [hit])[1..] == hits[1..] + [hit];
      FirstInAppend(hits[1..], hit, id);
      if InHits(hits, id) && hits[0].id != id {
        var k :| 0 <= k < |hits| && hits[k].id == id;
        assert hits[1..][k - 1].id == id;
      }
      if InHits(hits[1..], id) {
        var k :| 0 <= k < |hits[1..]| && hits[1..][k].id == id;
        assert hits[k + 1].id == id;
      }
    } else {
      assert ([] + [hit])[1..] == [];
    }
  }

  lemma AddHit(c: nat, lists: seq<Ranked>, hits: seq<Hit>, k: nat, scores: map<string, real>, firsts: map<string, Hit>)
    requires k < |hits| && Accumulated(c, lists, hits[..k], scores, firsts)
    ensures var hit := hits[k];
      var score := (if hit.id in scores then scores[hit.id] else 0.0) + Share(c, k + 1);
      Accumulated(c, lists, hits[..k + 1], scores[hit.id := score], if hit.id in firsts then firsts else firsts[hit.id := hit])
  {
    var hit, front := hits[k], hits[..k];
    assert hits[..k + 1] == front + [hit];
    var score := (if hit.id in scores then scores[hit.id] else 0.0) + Share(c, k + 1);
    var added := if hit.id in firsts then firsts else firsts[hit.id := hit];
    assert AccumulatedAt(c, lists, front, scores, firsts, hit.id);
    var next, more := scores[hit.id := score], front + [hit];
    forall id ensures AccumulatedAt(c, lists, more, next, added, id) {
      assert AccumulatedAt(c, lists, front, scores, firsts, id);
      AddHitAt(c, lists, front, hit, scores, firsts, id);
    }
  }

  lemma AddHitAt(c: nat, lists: seq<Ranked>, front: seq<Hit>, hit: Hit, scores: map<string, real>,
                 firsts: map<string, Hit>, id: string)
    requires AccumulatedAt(c, lists, front, scores, firsts, id)
    requires AccumulatedAt(c, lists, front, scores, firsts, hit.id)
    ensures var score := (if hit.id in scores then scores[hit.id] else 0.0) + Share(c, |front| + 1);
      AccumulatedAt(c, lists, front + [hit], scores[hit.id := score],
                    if hit.id in firsts then firsts else firsts[hit.id := hit], id)
  {
    OneMoreHit(c, front, hit, id);
    if id == hit.id {
      Absent(c, front, 1, id);
      AbsentFromLists(c, lists, id);
    }
  }

  lemma OneMoreHit(c: nat, front: seq<Hit>, hit: Hit, id: string)
    ensures ListScore(c, front + [hit], 1, id)
      == ListScore(c, front, 1, id) + if hit.id == id then Share(c, |front| + 1) else 0.0
    ensures InHits(front + [hit], id) <==> InHits(front, id) || hit.id == id
    ensures FirstIn(front + [hit], id)
      == if InHits(front, id) then FirstIn(front, id) else if hit.id == id then Some(hit) else None
  {
    ListScoreAppend(c, front, 1, hit, id);
    FirstInAppend(front, hit, id);
    if InHits(front, id) {
      var j :| 0 <= j < |front| && front[j].id == id;
      assert (front + [hit])[j].id == id;
    }
    assert (front + [hit])[|front|] == hit;
  }

  lemma {:induction false} Absent(c: nat, hits: seq<Hit>, rank: nat, id: string)
    requires rank >= 1
    ensures !InHits(hits, id) ==> ListScore(c, hits, rank, id) == 0.0
    decreases |hits|
  {
    if hits != [] && !InHits(hits, id) {
      assert hits[0].id != id;
      forall k | 0 <= k < |hits[1..]| ensures hits[1..][k].id != id {
        assert hits[k + 1].id != id;
      }
      Absent(c, hits[1..], rank + 1, id);
    }
  }

  lemma {:induction false} AbsentFromLists(c: nat, lists: seq<Ranked>, id: string)
    ensures !InLists(lists, id) ==> Score(c, lists, id) == 0.0
    ensures InLists(lists, id) <==> FirstHit(lists, id).Some?
  {
    if lists != [] {
      var n := |lists| - 1;
      AbsentFromLists(c, lists[..n], id);
      Absent(c, lists[n].hits, 1, id);
      FirstInAppend(lists[n].hits, Hit("", "", 0.0), id);
      LastList(lists, id);
    }
  }

  lemma LastList(lists: seq<Ranked>, id: string)
    requires lists != []
    ensures InLists(lists, id) <==> InLists(lists[..|lists| - 1], id) || InHits(lists[|lists| - 1].hits, id)
  {
    var n := |lists| - 1;
    if InLists(lists[..n], id) {
      var i :| 0 <= i < n && InHits(lists[..n][i].hits, id);
      assert InHits(lists[i].hits, id);
    }
    if InLists(lists, id) {
      var i :| 0 <= i < |lists| && InHits(lists[i].hits, id);
      assert i < n ==> InHits(lists[..n][i].hits, id);
    }
  }

  lemma CloseList(c: nat, lists: seq<Ranked>, i: nat, scores: map<string, real>, firsts: map<string, Hit>)
    requires i < |lists| && Accumulated(c, lists[..i], lists[i].hits, scores, firsts)
    ensures Accumulated(c, lists[..i + 1], [], scores, firsts)
  {
    var next := lists[..i + 1];
    assert next[..i] == lists[..i] && next[i] == lists[i];
    forall id ensures AccumulatedAt(c, next, [], scores, firsts, id) {
      assert AccumulatedAt(c, lists[..i], lists[i].hits, scores, firsts, id);
      LastList(next, id);
      AbsentFromLists(c, lists[..i], id);
    }
  }

  lemma Complete(c: nat, lists: seq<Ranked>, scores: map<string, real>, firsts: map<string, Hit>)
    requires Accumulated(c, lists, [], scores, firsts)
    ensures scores.Keys == AllIds(lists) && firsts.Keys == AllIds(lists)
    ensures forall id :: id in scores ==> scores[id] == Score(c, lists, id)
    ensures forall id :: id in firsts ==> FirstHit(lists, id) == Some(firsts[id])
  {
    forall id
      ensures id in scores <==> id in AllIds(lists)
      ensures id in firsts <==> id in AllIds(lists)
      ensures id in scores ==> scores[id] == Score(c, lists, id)
      ensures id in firsts ==> FirstHit(lists, id) == Some(firsts[id])
    {
      assert AccumulatedAt(c, lists, [], scores, firsts, id);
      InListsIffInAllIds(lists, id);
    }
  }

  lemma InListsIffInAllIds(lists: seq<Ranked>, id: string)
    ensures InLists(lists, id) <==> id in AllIds(lists)
  {
    if id in AllIds(lists) {
      var i, k :| 0 <= i < |lists| && 0 <= k < |lists[i].hits| && lists[i].hits[k].id == id;
      assert InHits(lists[i].hits, id);
    }
  }

  lemma {:induction false} FirstHitHasId(lists: seq<Ranked>, id: string)
    ensures FirstHit(lists, id).Some? ==> FirstHit(lists, id).value.id == id
  {
    if lists != [] {
      FirstHitHasId(lists[..|lists| - 1], id);
      FirstInAppend(lists[|lists| - 1].hits, Hit("", "", 0.0), id);
    }
  }

  // ---------- list order does not matter ----------

  lemma {:induction false} ScoreWithout(c: nat, lists: seq<Ranked>, j: nat, id: string)
    requires j < |lists|
    ensures Score(c, lists, id) == Score(c, lists[..j] + lists[j + 1..], id) + ListScore(c, lists[j].hits, 1, id)
  {
    var n := |lists| - 1;
    if j < n {
      var front := lists[..n];
      ScoreWithout(c, front, j, id);
      var rest := lists[..j] + lists[j + 1..];
      assert rest[..|rest| - 1] == front[..j] + front[j + 1..];
      assert rest[|rest| - 1] == lists[n];
    } else {
      assert lists[..j] + lists[j + 1..] == lists[..n];
    }
  }

  lemma RemoveAt<T>(s: seq<T>, j: nat)
    requires j < |s|
    ensures multiset(s[..j] + s[j + 1..]) == multiset(s) - multiset{s[j]}
  {
    assert s == s[..j] + ([s[j]] + s[j + 1..]);
  }

  lemma SameWithoutLast(a: seq<Ranked>, b: seq<Ranked>) returns (j: nat)
    requires a != [] && multiset(a) == multiset(b)
    ensures j < |b| && b[j] == a[|a| - 1]
    ensures multiset(a[..|a| - 1]) == multiset(b[..j] + b[j + 1..])
  {
    var n := |a| - 1;
    assert a[n] in multiset(b);
    j :| 0 <= j < |b| && b[j] == a[n];
    RemoveAt(a, n);
    RemoveAt(b, j);
    assert a[..n] + a[n + 1..] == a[..n];
  }

  /** The fused score of an id does not depend on the order of the lists. */
  lemma {:induction false} ScorePermutation(c: nat, a: seq<Ranked>, b: seq<Ranked>, id: string)
    requires multiset(a) == multiset(b)
    ensures Score(c, a, id) == Score(c, b, id)
    decreases |a|
  {
    if a == [] {
      assert |multiset(b)| == 0;
    } else {
      var j := SameWithoutLast(a, b);
      ScorePermutation(c, a[..|a| - 1], b[..j] + b[j + 1..], id);
      ScoreWithout(c, b, j, id);
    }
  }

  /** Nor does the ranking. */
  lemma RankingIgnoresListOrder(c: nat, a: seq<Ranked>, b: seq<Ranked>, ra: seq<Entry>, rb: seq<Entry>)
    requires multiset(a) == multiset(b) && IsRanking(c, a, ra) && IsRanking(c, b, rb)
    ensures ra == rb
  {
    forall id ensures Score(c, a, id) == Score(c, b, id) {
      ScorePermutation(c, a, b, id);
    }
    SameIds(a, b);
    SameIds(b, a);
    RankingUnique(c, a, b, ra, rb);
  }

  lemma SameIds(a: seq<Ranked>, b: seq<Ranked>)
    requires multiset(a) == multiset(b)
    ensures AllIds(a) <= AllIds(b)
  {
    forall id | id in AllIds(a) ensures id in AllIds(b) {
      var i, k :| 0 <= i < |a| && 0 <= k < |a[i].hits| && a[i].hits[k].id == id;
      assert a[i] in multiset(b);
      var j :| 0 <= j < |b| && b[j] == a[i];
      assert b[j].hits[k].id == id;
    }
  }

  // ---------- scores ----------

  ghost predicate DistinctHits(hits: seq<Hit>) {
    forall j, k :: 0 <= j < k < |hits| ==> hits[j].id != hits[k].id
  }

  lemma ShareOrder(c: nat, r: nat, s: nat)
    requires 1 <= r <= s
    ensures 0.0 < Share(c, s) <= Share(c, r)
    ensures r < s ==> Share(c, s) < Share(c, r)
  {
    var x, y := (c + r) as real, (c + s) as real;
    assert Share(c, r) - Share(c, s) == (y - x) / (x * y);
  }

  /** In a list without repeats an id adds the share of its rank. */
  lemma {:induction false} ListScoreAt(c: nat, hits: seq<Hit>, rank: nat, k: nat)
    requires rank >= 1 && DistinctHits(hits) && k < |hits|
    ensures ListScore(c, hits, rank, hits[k].id) == Share(c, rank + k)
    decreases |hits|
  {
    if k == 0 {
      forall j | 0 <= j < |hits[1..]| ensures hits[1..][j].id != hits[0].id {
        assert hits[j + 1].id != hits[0].id;
      }
      Absent(c, hits[1..], rank + 1, hits[0].id);
    } else {
      ListScoreAt(c, hits[1..], rank + 1, k - 1);
    }
  }

  /** Each list adds between nothing and the share of first place, and something
      exactly when it contains the id. */
  lemma ListScoreRange(c: nat, hits: seq<Hit>, id: string)
    requires DistinctHits(hits)
    ensures 0.0 <= ListScore(c, hits, 1, id) <= Share(c, 1)
    ensures ListScore(c, hits, 1, id) > 0.0 <==> InHits(hits, id)
  {
    ShareOrder(c, 1, 1);
    if InHits(hits, id) {
      var k :| 0 <= k < |hits| && hits[k].id == id;
      ListScoreAt(c, hits, 1, k);
      ShareOrder(c, 1, 1 + k);
    } else {
      Absent(c, hits, 1, id);
    }
  }

  /** The score of position `k` in `n` copies of one list. */
  function Weight(c: nat, n: nat, k: nat): real {
    n as real * Share(c, 1 + k)
  }

  lemma WeightNext(c: nat, n: nat, k: nat)
    ensures Weight(c, n + 1, k) == Weight(c, n, k) + Share(c, 1 + k)
    ensures Weight(c, 0, k) == 0.0
  {
  }

  /** With distinct ids inside each list, fused scores lie in (0, n / (c + 1)]. */
  lemma {:induction false} ScoreRange(c: nat, lists: seq<Ranked>, id: string)
    requires forall i :: 0 <= i < |lists| ==> DistinctHits(lists[i].hits)
    ensures 0.0 <= Score(c, lists, id) <= Weight(c, |lists|, 0)
    ensures Score(c, lists, id) > 0.0 <==> InLists(lists, id)
  {
    if lists != [] {
      var n := |lists| - 1;
      ScoreRange(c, lists[..n], id);
      ListScoreRange(c, lists[n].hits, id);
      LastList(lists, id);
      WeightNext(c, n, 0);
    } else {
      WeightNext(c, 0, 0);
    }
  }

  // ---------- dominance ----------

  /** In this list `a` is ranked at least as well as `b`. */
  ghost predicate AtLeastAsWell(hits: seq<Hit>, a: string, b: string) {
    InHits(hits, b) ==> exists j, k :: 0 <= j <= k < |hits| && hits[j].id == a && hits[k].id == b
  }

  /** And strictly better: earlier, or present where `b` is absent. */
  ghost predicate Better(hits: seq<Hit>, a: string, b: string) {
    if InHits(hits, b) then exists j, k :: 0 <= j < k < |hits| && hits[j].id == a && hits[k].id == b
    else InHits(hits, a)
  }

  lemma ListDominance(c: nat, hits: seq<Hit>, a: string, b: string)
    requires DistinctHits(hits) && AtLeastAsWell(hits, a, b)
    ensures ListScore(c, hits, 1, a) >= ListScore(c, hits, 1, b)
    ensures Better(hits, a, b) ==> ListScore(c, hits, 1, a) > ListScore(c, hits, 1, b)
  {
    ListScoreRange(c, hits, a);
    ListScoreRange(c, hits, b);
    if InHits(hits, b) {
      var j, k :| 0 <= j <= k < |hits| && hits[j].id == a && hits[k].id == b;
      ListScoreAt(c, hits, 1, j);
      ListScoreAt(c, hits, 1, k);
      ShareOrder(c, 1 + j, 1 + k);
      if Better(hits, a, b) {
        var j', k' :| 0 <= j' < k' < |hits| && hits[j'].id == a && hits[k'].id == b;
        assert j' == j && k' == k;
      }
    }
  }

  /** A hit ranked at least as well in every list and strictly better in one has
      the higher score. */
  lemma {:induction false} Dominance(c: nat, lists: seq<Ranked>, a: string, b: string)
    requires forall i :: 0 <= i < |lists| ==> DistinctHits(lists[i].hits) && AtLeastAsWell(lists[i].hits, a, b)
    ensures Score(c, lists, a) >= Score(c, lists, b)
    ensures (exists i :: 0 <= i < |lists| && Better(lists[i].hits, a, b)) ==> Score(c, lists, a) > Score(c, lists, b)
  {
    if lists != [] {
      var n := |lists| - 1;
      Dominance(c, lists[..n], a, b);
      ListDominance(c, lists[n].hits, a, b);
      if i :| 0 <= i < |lists| && Better(lists[i].hits, a, b) {
        assert i < n ==> Better(lists[..n][i].hits, a, b);
      }
    }
  }

  /** And so precedes the other in the ranking. */
  lemma DominantComesFirst(c: nat, lists: seq<Ranked>, ranking: seq<Entry>, x: nat, y: nat)
    requires IsRanking(c, lists, ranking) && x < |ranking| && y < |ranking|
    requires forall i :: 0 <= i < |lists| ==>
      DistinctHits(lists[i].hits) && AtLeastAsWell(lists[i].hits, ranking[x].0, ranking[y].0)
    requires exists i :: 0 <= i < |lists| && Better(lists[i].hits, ranking[x].0, ranking[y].0)
    ensures x < y
  {
    Dominance(c, lists, ranking[x].0, ranking[y].0);
    assert ranking[x] in ranking && ranking[y] in ranking;
    assert y < x ==> EntryLe(ranking[y], ranking[x]);
  }

  // ---------- identical lists ----------

  lemma {:induction false} SameListsScore(c: nat, lists: seq<Ranked>, hits: seq<Hit>, k: nat)
    requires DistinctHits(hits) && k < |hits| && forall i :: 0 <= i < |lists| ==> lists[i].hits == hits
    ensures Score(c, lists, hits[k].id) == Weight(c, |lists|, k)
  {
    if lists != [] {
      var n := |lists| - 1;
      SameListsScore(c, lists[..n], hits, k);
      ListScoreAt(c, hits, 1, k);
      WeightNext(c, n, k);
    } else {
      WeightNext(c, 0, k);
    }
  }

  /** The entries of `n` copies of one list, in the list's order. */
  ghost function Copies(c: nat, n: nat, hits: seq<Hit>): seq<Entry> {
    seq(|hits|, k requires 0 <= k < |hits| => (hits[k].id, Weight(c, n, k)))
  }

  lemma CopiesSorted(c: nat, n: nat, hits: seq<Hit>)
    requires n > 0 && DistinctHits(hits)
    ensures Sorted(EntryLe, Copies(c, n, hits)) && Distinct(Copies(c, n, hits))
  {
    var copies := Copies(c, n, hits);
    forall j, k | 0 <= j < k < |hits| ensures EntryLe(copies[j], copies[k]) && copies[j] != copies[k] {
      ShareOrder(c, 1 + j, 1 + k);
    }
  }

  lemma CopiesExact(c: nat, lists: seq<Ranked>, hits: seq<Hit>, e: Entry)
    requires lists != [] && DistinctHits(hits) && forall i :: 0 <= i < |lists| ==> lists[i].hits == hits
    ensures e in Copies(c, |lists|, hits) <==> e.0 in AllIds(lists) && e.1 == Score(c, lists, e.0)
  {
    var n := |lists|;
    var copies := Copies(c, n, hits);
    forall k | 0 <= k < |hits|
      ensures hits[k].id in AllIds(lists)
      ensures copies[k] == (hits[k].id, Score(c, lists, hits[k].id))
    {
      assert lists[0].hits[k].id == hits[k].id;
      SameListsScore(c, lists, hits, k);
    }
    assert e.0 in AllIds(lists) ==> exists k :: 0 <= k < |hits| && hits[k].id == e.0;
  }

  /** Fusing copies of one list keeps its order. */
  lemma IdenticalListsKeepOrder(c: nat, lists: seq<Ranked>, hits: seq<Hit>, ranking: seq<Entry>)
    requires lists != [] && DistinctHits(hits) && forall i :: 0 <= i < |lists| ==> lists[i].hits == hits
    requires IsRanking(c, lists, ranking)
    ensures |ranking| == |hits| && forall k :: 0 <= k < |hits| ==> ranking[k].0 == hits[k].id
  {
    var n := |lists|;
    var expected := Copies(c, n, hits);
    CopiesSorted(c, n, hits);
    forall e ensures e in expected <==> e.0 in AllIds(lists) && e.1 == Score(c, lists, e.0) {
      CopiesExact(c, lists, hits, e);
    }
    assert IsRanking(c, lists, expected);
    RankingUnique(c, lists, lists, ranking, expected);
  }

  // ---------- scores and order, in numbers ----------

  ghost function Sum(terms: seq<real>): real {
    if terms == [] then 0.0 else Sum(terms[..|terms| - 1]) + terms[|terms| - 1]
  }

  /** What each place of a list adds to an id: the reciprocal of the constant plus
      the rank, counted from one, where the id stands. */
  ghost function Terms(c: nat, hits: seq<Hit>, id: string): seq<real> {
    seq(|hits|, k requires 0 <= k < |hits| => if hits[k].id == id then 1.0 / (c + k + 1) as real else 0.0)
  }

  lemma {:induction false} ListScoreExact(c: nat, hits: seq<Hit>, id: string)
    ensures ListScore(c, hits, 1, id) == Sum(Terms(c, hits, id))
  {
    if hits != [] {
      var n := |hits| - 1;
      ListScoreExact(c, hits[..n], id);
      ListScoreAppend(c, hits[..n], 1, hits[n], id);
      assert hits[..n] + [hits[n]] == hits;
      assert Terms(c, hits, id)[..n] == Terms(c, hits[..n], id);
    }
  }

  ghost function ListTerms(c: nat, lists: seq<Ranked>, id: string): seq<real> {
    seq(|lists|, i requires 0 <= i < |lists| => Sum(Terms(c, lists[i].hits, id)))
  }

  /** A fused score is the sum over all places where the id stands. */
  lemma {:induction false} ScoreExact(c: nat, lists: seq<Ranked>, id: string)
    ensures Score(c, lists, id) == Sum(ListTerms(c, lists, id))
  {
    if lists != [] {
      var n := |lists| - 1;
      ScoreExact(c, lists[..n], id);
      ListScoreExact(c, lists[n].hits, id);
      assert ListTerms(c, lists, id)[..n] == ListTerms(c, lists[..n], id);
    }
  }

  /** A higher score comes first; at equal score the smaller id. */
  ghost predicate Precedes(score: real, id: string, otherScore: real, other: string) {
    score > otherScore || (score == otherScore && ComesBefore(id, other))
  }

  lemma EntryLeExact(a: Entry, b: Entry)
    ensures EntryLe(a, b) <==> Precedes(a.1, a.0, b.1, b.0)
  {
    StrLeExact(a.0, b.0);
  }

  ghost predicate FusedId(fused: seq<Fused>, id: string) {
    exists k :: 0 <= k < |fused| && fused[k].hit.id == id
  }

  /** The fused results are as many of all ids as the slice keeps, in order, and each
      precedes every id left out. */
  lemma FusionInOrder(c: nat, lists: seq<Ranked>, topK: int, ranking: seq<Entry>, fused: seq<Fused>)
    requires IsRanking(c, lists, ranking) && IsFused(lists, Take(ranking, topK), fused)
    ensures |fused| == SliceLength(|AllIds(lists)|, topK)
    ensures forall k :: 0 <= k < |fused| ==>
      fused[k].hit.id in AllIds(lists) && fused[k].score == Score(c, lists, fused[k].hit.id)
    ensures forall i, j :: 0 <= i < j < |fused| ==>
      fused[i].hit.id != fused[j].hit.id
      && Precedes(fused[i].score, fused[i].hit.id, fused[j].score, fused[j].hit.id)
    ensures forall k, id :: 0 <= k < |fused| && id in AllIds(lists) && !FusedId(fused, id) ==>
      Precedes(fused[k].score, fused[k].hit.id, Score(c, lists, id), id)
  {
    var top := Take(ranking, topK);
    TakeExact(ranking, topK);
    EntriesPerId(c, lists, ranking, AllIds(lists));
    forall k | 0 <= k < |fused|
      ensures fused[k].hit.id in AllIds(lists) && fused[k].score == Score(c, lists, fused[k].hit.id)
    {
      assert ranking[k] in ranking;
    }
    forall i, j | 0 <= i < j < |fused|
      ensures fused[i].hit.id != fused[j].hit.id
      ensures Precedes(fused[i].score, fused[i].hit.id, fused[j].score, fused[j].hit.id)
    {
      assert ranking[i] in ranking && ranking[j] in ranking;
      EntryLeExact(ranking[i], ranking[j]);
    }
    forall j | 0 <= j < |fused| ensures FusedId(fused, ranking[j].0) {
      assert fused[j].hit.id == ranking[j].0;
    }
    forall k, id | 0 <= k < |fused| && id in AllIds(lists) && !FusedId(fused, id)
      ensures Precedes(fused[k].score, fused[k].hit.id, Score(c, lists, id), id)
    {
      var e := (id, Score(c, lists, id));
      var j :| 0 <= j < |ranking| && ranking[j] == e;
      EntryLeExact(ranking[k], e);
    }
  }

  lemma {:induction false} EntriesPerId(c: nat, lists: seq<Ranked>, entries: seq<Entry>, ids: set<string>)
    requires Distinct(entries) && forall e :: e in entries <==> e.0 in ids && e.1 == Score(c, lists, e.0)
    ensures |entries| == |ids|
  {
    if entries == [] {
      forall id ensures id !in ids {
        assert (id, Score(c, lists, id)) !in entries;
      }
      assert ids == {};
    } else {
      var e := entries[0];
      assert e in entries;
      forall x ensures x in entries[1..] <==> x.0 in ids - {e.0} && x.1 == Score(c, lists, x.0) {
        assert x in entries <==> x == e || x in entries[1..];
        assert e !in entries[1..];
      }
      EntriesPerId(c, lists, entries[1..], ids - {e.0});
    }
  }

  /** The representative of an id: no list before has the id, and no earlier place. */
  ghost predicate FirstAt(lists: seq<Ranked>, i: nat, k: nat, hit: Hit) {
    && i < |lists| && k < |lists[i].hits| && lists[i].hits[k] == hit
    && (forall j :: 0 <= j < k ==> lists[i].hits[j].id != hit.id)
    && (forall h :: 0 <= h < i ==> !InHits(lists[h].hits, hit.id))
  }

  lemma {:induction false} FirstInExact(hits: seq<Hit>, id: string) returns (k: nat)
    requires FirstIn(hits, id).Some?
    ensures k < |hits| && FirstIn(hits, id) == Some(hits[k]) && hits[k].id == id
    ensures forall j :: 0 <= j < k ==> hits[j].id != id
  {
    if hits[0].id == id {
      k := 0;
    } else {
      var j := FirstInExact(hits[1..], id);
      k := j + 1;
    }
  }

  lemma {:induction false} FirstHitExact(lists: seq<Ranked>, id: string) returns (i: nat, k: nat)
    requires FirstHit(lists, id).Some?
    ensures FirstHit(lists, id).value.id == id && FirstAt(lists, i, k, FirstHit(lists, id).value)
  {
    var n := |lists| - 1;
    if FirstHit(lists[..n], id).Some? {
      i, k := FirstHitExact(lists[..n], id);
    } else {
      i := n;
      k := FirstInExact(lists[n].hits, id);
      forall h | 0 <= h < n ensures !InHits(lists[h].hits, id) {
        NoFirstHit(lists[..n], id, h);
      }
    }
  }

  lemma {:induction false} NoFirstHit(lists: seq<Ranked>, id: string, h: nat)
    requires FirstHit(lists, id).None? && h < |lists|
    ensures !InHits(lists[h].hits, id)
  {
    var n := |lists| - 1;
    if h < n {
      NoFirstHit(lists[..n], id, h);
    } else {
      NoFirstIn(lists[n].hits, id);
    }
  }

  lemma {:induction false} NoFirstIn(hits: seq<Hit>, id: string)
    requires FirstIn(hits, id).None?
    ensures !InHits(hits, id)
  {
    if hits != [] {
      NoFirstIn(hits[1..], id);
      forall k | 0 <= k < |hits| ensures hits[k].id != id {
        assert k > 0 ==> hits[1..][k - 1] == hits[k];
      }
    }
  }
}
