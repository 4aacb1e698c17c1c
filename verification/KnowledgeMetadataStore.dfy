/** The chunk half of the metadata store: one insertion-ordered dictionary from
    chunk id to chunk per document. */
module KnowledgeMetadataStore {
  import opened TotalOrders
  import opened ChunkText
  import opened ChunkModels
  import opened ChunkMerge
  import opened ChunkPolicy
  import opened SectionParents

  /** Assigning to a key of an ordered dictionary: an existing key keeps its place. */
  function Put(d: seq<ChunkRecord>, c: ChunkRecord): seq<ChunkRecord> {
    if d == [] then [c]
    else if d[0].chunkId == c.chunkId then [c] + d[1..]
    else [d[0]] + Put(d[1..], c)
  }

  /** The dictionary comprehension over `chunks`, as its list of values. */
  function DictOf(chunks: seq<ChunkRecord>): seq<ChunkRecord> {
    if chunks == [] then [] else Put(DictOf(chunks[..|chunks| - 1]), chunks[|chunks| - 1])
  }

  class Store {
    var chunksByDoc: map<string, seq<ChunkRecord>>

    constructor ()
      ensures chunksByDoc == map[]
    {
      chunksByDoc := map[];
    }

    method ReplaceChunks(docId: string, chunks: seq<ChunkRecord>) returns (count: nat)
      modifies this
      ensures chunksByDoc == old(chunksByDoc)[docId := DictOf(chunks)]
      ensures count == |chunks|
    {
      var values: seq<ChunkRecord> := [];
      for i := 0 to |chunks|
        invariant values == DictOf(chunks[..i])
        invariant chunksByDoc == old(chunksByDoc)
      {
        assert chunks[..i + 1][..i] == chunks[..i];
        values := Put(values, chunks[i]);
      }
      assert chunks[..|chunks|] == chunks;
      chunksByDoc := chunksByDoc[docId := values];
      count := |chunks|;
    }

    method DeleteChunksByDocId(docId: string) returns (count: nat)
      modifies this
      ensures chunksByDoc == old(chunksByDoc) - {docId}
      ensures count == if docId in old(chunksByDoc) then |old(chunksByDoc)[docId]| else 0
    {
      count := if docId in chunksByDoc then |chunksByDoc[docId]| else 0;
      chunksByDoc := chunksByDoc - {docId};
    }

    method ListChunksByDocId(docId: string) returns (chunks: seq<ChunkRecord>)
      ensures chunks == if docId in chunksByDoc then chunksByDoc[docId] else []
    {
      chunks := if docId in chunksByDoc then chunksByDoc[docId] else [];
    }
  }

  ghost predicate DistinctIds(d: seq<ChunkRecord>) {
    forall i, j :: 0 <= i < j < |d| ==> d[i].chunkId != d[j].chunkId
  }

  ghost predicate HasId(d: seq<ChunkRecord>, id: string) {
    exists c :: c in d && c.chunkId == id
  }

  lemma {:induction false} PutMembers(d: seq<ChunkRecord>, c: ChunkRecord)
    requires DistinctIds(d)
    ensures forall x :: x in Put(d, c) <==> x == c || (x in d && x.chunkId != c.chunkId)
  {
    if d != [] {
      PutMembers(d[1..], c);
      assert forall x :: x in d <==> x == d[0] || x in d[1..];
      if d[0].chunkId == c.chunkId {
        assert forall x :: x in Put(d, c) <==> x == c || x in d[1..];
      }
    }
  }

  lemma {:induction false} PutExact(d: seq<ChunkRecord>, c: ChunkRecord)
    requires DistinctIds(d)
    ensures DistinctIds(Put(d, c))
    ensures if HasId(d, c.chunkId) then |Put(d, c)| == |d| else Put(d, c) == d + [c]
  {
    if d != [] {
      PutExact(d[1..], c);
      PutMembers(d[1..], c);
      assert forall x :: x in d <==> x == d[0] || x in d[1..];
      assert HasId(d, c.chunkId) <==> d[0].chunkId == c.chunkId || HasId(d[1..], c.chunkId);
      if d[0].chunkId != c.chunkId {
        forall x | x in Put(d[1..], c) ensures x.chunkId != d[0].chunkId {
        }
      }
    }
  }

  /** `c` is the last of `chunks` with its id. */
  ghost predicate LastWithId(chunks: seq<ChunkRecord>, c: ChunkRecord) {
    chunks != [] && (c == chunks[|chunks| - 1]
      || (c.chunkId != chunks[|chunks| - 1].chunkId && LastWithId(chunks[..|chunks| - 1], c)))
  }

  /** The stored values: one per id, the last given for it. */
  lemma {:induction false} DictOfExact(chunks: seq<ChunkRecord>)
    ensures DistinctIds(DictOf(chunks))
    ensures forall c :: c in DictOf(chunks) <==> LastWithId(chunks, c)
    ensures |DictOf(chunks)| <= |chunks|
  {
    if chunks != [] {
      var front, last := chunks[..|chunks| - 1], chunks[|chunks| - 1];
      DictOfExact(front);
      PutExact(DictOf(front), last);
      PutMembers(DictOf(front), last);
    }
  }

  lemma DistinctIdsDistinct(chunks: seq<ChunkRecord>)
    ensures DistinctIds(chunks) <==> Distinct(Ids(chunks))
  {
    if DistinctIds(chunks) {
      forall i, j | 0 <= i < j < |chunks| ensures Ids(chunks)[i] != Ids(chunks)[j] {
        assert chunks[i].chunkId != chunks[j].chunkId;
      }
    } else {
      var i, j :| 0 <= i < j < |chunks| && chunks[i].chunkId == chunks[j].chunkId;
      assert Ids(chunks)[i] == Ids(chunks)[j];
    }
  }

  /** Storing and listing gives the same sequence back exactly when the ids are
      distinct; otherwise chunks are lost. */
  lemma {:induction false} RoundTrip(chunks: seq<ChunkRecord>)
    ensures DictOf(chunks) == chunks <==> Distinct(Ids(chunks))
    ensures !Distinct(Ids(chunks)) ==> |DictOf(chunks)| < |chunks|
  {
    DistinctIdsDistinct(chunks);
    DictOfExact(chunks);
    if DistinctIds(chunks) {
      DistinctKept(chunks);
    } else {
      RepeatedLost(chunks);
    }
  }

  lemma {:induction false} DistinctKept(chunks: seq<ChunkRecord>)
    requires DistinctIds(chunks)
    ensures DictOf(chunks) == chunks
  {
    if chunks != [] {
      var front, last := chunks[..|chunks| - 1], chunks[|chunks| - 1];
      DistinctKept(front);
      PutExact(front, last);
      assert chunks == front + [last];
    }
  }

  lemma {:induction false} RepeatedLost(chunks: seq<ChunkRecord>)
    requires !DistinctIds(chunks)
    ensures |DictOf(chunks)| < |chunks|
  {
    var front, last := chunks[..|chunks| - 1], chunks[|chunks| - 1];
    assert chunks == front + [last];
    if DistinctIds(front) {
      DistinctKept(front);
      LastRepeats(front, last);
    } else {
      RepeatedLost(front);
    }
    DictOfExact(front);
    PutExact(DictOf(front), last);
  }

  lemma LastRepeats(front: seq<ChunkRecord>, last: ChunkRecord)
    requires DistinctIds(front) && !DistinctIds(front + [last])
    ensures HasId(front, last.chunkId)
  {
    if !HasId(front, last.chunkId) {
    }
  }

  // ---------- chunks and parents ----------

  /** What the indexing path stores: the linked chunks, then their parents. */
  function Stored(once: seq<ChunkRecord>): seq<ChunkRecord> {
    Linked(once, SectionParentsOf(once)) + SectionParentsOf(once)
  }

  ghost predicate OfDocument(docId: string, chunks: seq<ChunkRecord>) {
    forall c :: c in chunks ==> c.docId == docId
  }

  /** No chunk carries the id of a parent made for them. */
  ghost predicate NoParentId(docId: string, once: seq<ChunkRecord>) {
    forall i, q: nat :: 0 <= i < |once| && q < |SectionParentsOf(once)| ==> once[i].chunkId != ParentId(docId, q)
  }

  lemma DistinctJoin(a: seq<string>, b: seq<string>)
    requires Distinct(b)
    ensures Distinct(a + b) <==> Distinct(a) && forall i, j :: 0 <= i < |a| && 0 <= j < |b| ==> a[i] != b[j]
  {
    var both := a + b;
    if Distinct(both) {
      forall i, j | 0 <= i < j < |a| ensures a[i] != a[j] {
        assert both[i] == a[i] && both[j] == a[j];
      }
      forall i, j | 0 <= i < |a| && 0 <= j < |b| ensures a[i] != b[j] {
        assert both[i] == a[i] && both[|a| + j] == b[j];
      }
    }
  }

  lemma ParentIds(docId: string, once: seq<ChunkRecord>)
    requires OfDocument(docId, once)
    ensures forall q: nat :: q < |SectionParentsOf(once)| ==> Ids(SectionParentsOf(once))[q] == ParentId(docId, q)
    ensures Distinct(Ids(SectionParentsOf(once)))
  {
    var parents := SectionParentsOf(once);
    ParentsAreMaximalRuns(once);
    forall q: nat | q < |parents| ensures Ids(parents)[q] == ParentId(docId, q) {
      assert once[SpansFrom(once, 0, 0)[q].0] in once;
    }
    forall i, j | 0 <= i < j < |parents| ensures Ids(parents)[i] != Ids(parents)[j] {
      if ParentId(docId, i) == ParentId(docId, j) {
        NumberedInjective(docId + ":parent:", i, j);
      }
    }
  }

  lemma StoredIds(once: seq<ChunkRecord>)
    ensures Ids(Stored(once)) == Ids(once) + Ids(SectionParentsOf(once))
  {
    assert Ids(Linked(once, SectionParentsOf(once))) == Ids(once);
  }

  /** Chunks of one document survive the store together with their parents exactly
      when their ids are distinct and none is that of a parent. */
  lemma StoredSurvives(docId: string, once: seq<ChunkRecord>)
    requires OfDocument(docId, once)
    ensures DictOf(Stored(once)) == Stored(once) <==> Distinct(Ids(once)) && NoParentId(docId, once)
  {
    var parents := SectionParentsOf(once);
    RoundTrip(Stored(once));
    StoredIds(once);
    ParentIds(docId, once);
    DistinctJoin(Ids(once), Ids(parents));
    if Distinct(Ids(once) + Ids(parents)) {
      forall i, q: nat | 0 <= i < |once| && q < |parents| ensures once[i].chunkId != ParentId(docId, q) {
        assert Ids(once)[i] != Ids(parents)[q];
      }
    } else if NoParentId(docId, once) {
      forall i, q | 0 <= i < |once| && 0 <= q < |parents| ensures Ids(once)[i] != Ids(parents)[q] {
        assert once[i].chunkId != ParentId(docId, q);
      }
    }
  }

  lemma CpIsNotParent(docId: string, n: nat, q: nat)
    ensures CpId(docId, n) != ParentId(docId, q)
  {
    assert CpId(docId, n)[|docId| + 1] == 'c' && ParentId(docId, q)[|docId| + 1] == 'p';
  }

  /** No chunk that passes through unchanged carries the id of one of `n` parents. */
  ghost predicate KeptNoParentId(docId: string, ws: seq<Working>, n: nat) {
    forall i, q: nat :: 0 <= i < |ws| && !ws[i].boundaryChanged && q < n ==> ws[i].chunk.chunkId != ParentId(docId, q)
  }

  lemma FinalNoParentId(docId: string, ws: seq<Working>)
    requires OneDocument(docId, ws)
    ensures OfDocument(docId, FinalAll(ws, 0))
    ensures NoParentId(docId, FinalAll(ws, 0)) <==> KeptNoParentId(docId, ws, |SectionParentsOf(FinalAll(ws, 0))|)
  {
    var once := FinalAll(ws, 0);
    FinalAt(ws, 0);
    forall i, q: nat | 0 <= i < |ws|
      ensures once[i].docId == docId
      ensures once[i].chunkId != ParentId(docId, q) <==>
              ws[i].boundaryChanged || ws[i].chunk.chunkId != ParentId(docId, q)
    {
      assert once[i] == FinalOne(ws[i], 0 + i);
      CpIsNotParent(docId, i, q);
    }
  }

  /** What the indexing path stores for a document with distinct ids is what it lists
      back exactly when no chunk that passes through unchanged carries the id that
      renumbering gives to the place of a changed one, or that of a parent. */
  lemma AppliedChunksSurvive(p: Policy, docId: string, chunks: seq<ChunkRecord>)
    requires p.maxSize >= 1 && p.capBytes >= 4
    requires Distinct(Ids(chunks)) && OfDocument(docId, chunks)
    ensures var once, ws := Applied(p, chunks), Cut3(p, chunks);
      DictOf(Stored(once)) == Stored(once) <==>
      NoReuse(docId, ws) && KeptNoParentId(docId, ws, |SectionParentsOf(once)|)
  {
    var ws := Cut3(p, chunks);
    if chunks != [] {
      KeptIdsOf(p, docId, chunks);
    }
    assert OneDocument(docId, ws);
    FinalNoParentId(docId, ws);
    ApplyIdsDistinctExactly(p, docId, chunks);
    StoredSurvives(docId, Applied(p, chunks));
  }

  /** The identifier is not one that a parent could get. */
  ghost predicate NotParentId(docId: string, id: string) {
    forall n: nat :: id != ParentId(docId, n)
  }

  /** So it is when no given chunk carries an id that renumbering or a parent could get. */
  lemma FreshChunksSurvive(p: Policy, docId: string, chunks: seq<ChunkRecord>)
    requires p.maxSize >= 1 && p.capBytes >= 4
    requires Distinct(Ids(chunks)) && OfDocument(docId, chunks)
    requires forall c :: c in chunks ==> NotCpId(docId, c.chunkId) && NotParentId(docId, c.chunkId)
    ensures DictOf(Stored(Applied(p, chunks))) == Stored(Applied(p, chunks))
  {
    var ws := Cut3(p, chunks);
    forall i: nat, j: nat | i < |ws| && j < |ws| ensures !Reuses(docId, ws, i, j) {
      if !ws[i].boundaryChanged {
        KeptIsGiven(p, docId, chunks, i);
      }
    }
    forall i, q: nat | 0 <= i < |ws| && !ws[i].boundaryChanged ensures ws[i].chunk.chunkId != ParentId(docId, q) {
      KeptIsGiven(p, docId, chunks, i);
    }
    AppliedChunksSurvive(p, docId, chunks);
  }

  /** The plain-text path names the chunks of a document by their position. */
  lemma PlainTextChunksSurvive(p: Policy, docId: string, chunks: seq<ChunkRecord>)
    requires p.maxSize >= 1 && p.capBytes >= 4
    requires OfDocument(docId, chunks)
    requires forall k :: 0 <= k < |chunks| ==> chunks[k].chunkId == docId + ":c" + Padded(k)
    ensures DictOf(Stored(Applied(p, chunks))) == Stored(Applied(p, chunks))
  {
    forall j, k | 0 <= j < k < |chunks| ensures Ids(chunks)[j] != Ids(chunks)[k] {
      if docId + ":c" + Padded(j) == docId + ":c" + Padded(k) {
        NumberedInjective(docId + ":c", j, k);
      }
    }
    forall k, n: nat | 0 <= k < |chunks|
      ensures chunks[k].chunkId != CpId(docId, n) && chunks[k].chunkId != ParentId(docId, n)
    {
      PositionIsFresh(docId, k, n);
    }
    FreshChunksSurvive(p, docId, chunks);
  }

  lemma PositionIsFresh(docId: string, k: nat, n: nat)
    ensures docId + ":c" + Padded(k) != CpId(docId, n) && docId + ":c" + Padded(k) != ParentId(docId, n)
  {
    var id := docId + ":c" + Padded(k);
    PaddedStarts(k);
    assert id[|docId| + 1] == 'c' && id[|docId| + 2] == Padded(k)[0];
    assert ParentId(docId, n)[|docId| + 1] == 'p' && CpId(docId, n)[|docId| + 2] == 'p';
  }

  lemma PaddedStarts(n: nat)
    ensures |Padded(n)| >= 1 && Padded(n)[0] != 'p'
  {
    DecimalStarts(n);
  }

  lemma {:induction false} DecimalStarts(n: nat)
    ensures |Decimal(n)| >= 1 && Decimal(n)[0] != 'p'
  {
    if n >= 10 {
      DecimalStarts(n / 10);
    } else {
      assert Digit(n) in "0123456789";
    }
  }

  /** The conditions on parents are needed: of two texts under one heading that stay
      apart, one with the id of their parent is overwritten by it. */
  lemma ParentIdClashes(p: Policy, a: ChunkRecord, b: ChunkRecord)
    requires p.maxSize >= 1 && p.capBytes >= 4
    requires IsText(a) && IsText(b) && a.headingPath == b.headingPath != []
    requires |a.content| <= p.maxSize && |b.content| <= p.maxSize < |a.content| + |MERGE_SEPARATOR| + |b.content|
    requires Bytes(a.content) <= p.capBytes && Bytes(b.content) <= p.capBytes
    requires a.docId == b.docId && a.chunkId == ParentId(a.docId, 0)
    ensures NotCpId(a.docId, a.chunkId)
    ensures var once := Applied(p, [a, b]);
      && |once| == 2 && once[0].chunkId == a.chunkId && once[0].content == a.content
      && |DictOf(Stored(once))| < |Stored(once)|
      && forall c :: c in DictOf(Stored(once)) && c.chunkId == a.chunkId ==>
           c.contentType == SECTION_PARENT_CONTENT_TYPE
  {
    forall n: nat ensures a.chunkId != CpId(a.docId, n) {
      CpIsNotParent(a.docId, n, 0);
    }
    var once := Applied(p, [a, b]);
    StaysApart(p, a, b);
    OneRunOfTwo(once);
    StoredIds(once);
    var ids, stored := Ids(Stored(once)), Stored(once);
    assert ids[0] == ids[2];
    RoundTrip(stored);
    DictOfExact(stored);
    assert stored[..2][1] == stored[1];
    forall c | c in DictOf(stored) && c.chunkId == a.chunkId ensures c == stored[2] {
    }
  }

  /** They pass through with nothing but their place and metadata refreshed. */
  lemma StaysApart(p: Policy, a: ChunkRecord, b: ChunkRecord)
    requires p.maxSize >= 1 && p.capBytes >= 4
    requires |a.content| <= p.maxSize && |b.content| <= p.maxSize < |a.content| + |MERGE_SEPARATOR| + |b.content|
    requires Bytes(a.content) <= p.capBytes && Bytes(b.content) <= p.capBytes
    ensures Applied(p, [a, b]) == [FinalOne(Working(a, false), 0), FinalOne(Working(b, false), 1)]
  {
    var ws := [Working(a, false), Working(b, false)];
    assert ws == Fresh([a, b]) && NoMergeable(p, [a, b]);
    MergePassNothing(p, [a, b]);
    ExpandSame(Resplitter(p), ws);
    ExpandSame(Capper(p), ws);
    assert ws[1..] == [ws[1]] && ws[1..][1..] == [];
    assert FinalAll(ws, 0) == [FinalOne(ws[0], 0)] + FinalAll(ws[1..], 1);
  }

  lemma OneRunOfTwo(once: seq<ChunkRecord>)
    requires |once| == 2 && Eligible(once[0]) && Eligible(once[1]) && once[0].headingPath == once[1].headingPath
    ensures var parents := SectionParentsOf(once);
      |parents| == 1 && parents[0].chunkId == ParentId(once[0].docId, 0)
      && parents[0].contentType == SECTION_PARENT_CONTENT_TYPE
  {
    assert SpansFrom(once, 0, 0) == [(0, 2)] by {
      assert SpansFrom(once, 0, 0) == SpansFrom(once, 0, 1) == SpansFrom(once, 0, 2);
    }
    ParentsAreMaximalRuns(once);
  }

  // ---------- through the store ----------

  /** The chunks of other documents are as before. */
  twostate predicate OthersKept(store: Store, docId: string)
    reads store
  {
    store.chunksByDoc - {docId} == old(store.chunksByDoc) - {docId}
  }

  /** Storing chunks and listing them gives them back exactly when their ids are
      distinct, whatever the document had before. */
  method StoreThenList(store: Store, docId: string, chunks: seq<ChunkRecord>) returns (listed: seq<ChunkRecord>)
    modifies store
    ensures listed == chunks <==> Distinct(Ids(chunks))
    ensures OthersKept(store, docId)
  {
    var _ := store.ReplaceChunks(docId, chunks);
    listed := store.ListChunksByDocId(docId);
    RoundTrip(chunks);
  }

  /** Indexing: the policy's chunks and their parents replace what the document had,
      and a document without chunks loses what it had. */
  method IndexThenList(store: Store, p: Policy, docId: string, chunks: seq<ChunkRecord>)
    returns (made: PolicyResult, listed: seq<ChunkRecord>)
    requires p.maxSize >= 1
    modifies store
    ensures made.chunks == Linked(Applied(p, chunks), made.parents) && made.parents == SectionParentsOf(Applied(p, chunks))
    ensures OthersKept(store, docId)
    ensures p.capBytes >= 4 && Distinct(Ids(chunks)) && OfDocument(docId, chunks) ==>
      (listed == made.chunks + made.parents <==>
       NoReuse(docId, Cut3(p, chunks)) && KeptNoParentId(docId, Cut3(p, chunks), |made.parents|))
  {
    made := ApplyWithParents(p, chunks);
    if made.chunks != [] {
      var _ := store.ReplaceChunks(docId, made.chunks + made.parents);
    } else {
      var _ := store.DeleteChunksByDocId(docId);
    }
    listed := store.ListChunksByDocId(docId);
    NoParentsOfNothing(made.chunks, Applied(p, chunks));
    if p.capBytes >= 4 && Distinct(Ids(chunks)) && OfDocument(docId, chunks) {
      AppliedChunksSurvive(p, docId, chunks);
    }
  }

  lemma NoParentsOfNothing(linked: seq<ChunkRecord>, once: seq<ChunkRecord>)
    requires linked == Linked(once, SectionParentsOf(once))
    ensures linked == [] ==> SectionParentsOf(once) == [] && DictOf(Stored(once)) == []
  {
  }
}
