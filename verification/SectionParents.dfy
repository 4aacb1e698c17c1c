/** Section parents: every maximal run of two or more consecutive text chunks
    under one non-empty heading gets a parent, and its chunks point to it. */
module SectionParents {
  import opened Wrappers
  import opened TotalOrders
  import opened ChunkModels
  import opened ChunkMerge
  import opened ChunkPolicy

  const SECTION_PARENT_CONTENT_TYPE: string := "section_parent"

  predicate Eligible(c: ChunkRecord) {
    IsText(c) && c.headingPath != []
  }

  // ---------- one parent ----------

  function ParentId(docId: string, n: nat): string {
    docId + ":parent:" + Padded(n)
  }

  function FirstPage(group: seq<ChunkRecord>): Option<int> {
    if group == [] then None else MinPage(group[0].pageStart, FirstPage(group[1..]))
  }

  function LastPage(group: seq<ChunkRecord>): Option<int> {
    if group == [] then None else MaxPage(group[0].pageEnd, LastPage(group[1..]))
  }

  function AllFlags(group: seq<ChunkRecord>): seq<string> {
    if group == [] then [] else group[0].qualityFlags + AllFlags(group[1..])
  }

  /** Metadata copied from the first child when present. */
  const INHERITED_KEYS: set<string> := {"_source", "_file_name", "_extension", "parser_engine"}

  function ParentMetadata(first: ChunkRecord, id: string, ref: SourceRef, flags: seq<string>): map<string, Value> {
    map[
      "kb_id" := Text(first.kbId),
      "doc_id" := Text(first.docId),
      "chunk_id" := Text(id),
      "content_type" := Text(SECTION_PARENT_CONTENT_TYPE),
      "heading_path" := Names(first.headingPath),
      "page_start" := Page(ref.pageStart),
      "page_end" := Page(ref.pageEnd),
      "quality_flags" := Names(flags),
      "source_ref" := Source(ref),
      "chunk_role" := Text("parent")]
  }

  function Inherited(first: ChunkRecord): map<string, Value> {
    map k | k in INHERITED_KEYS && k in first.metadata :: first.metadata[k]
  }

  function OneParent(group: seq<ChunkRecord>, parentSeq: nat): ChunkRecord
    requires group != []
  {
    var first := group[0];
    var id := ParentId(first.docId, parentSeq);
    var flags := SortedSet(AllFlags(group));
    var ref := first.sourceRef.(chunkId := id, contentType := SECTION_PARENT_CONTENT_TYPE,
                                pageStart := FirstPage(group), pageEnd := LastPage(group));
    ChunkRecord(
      id, first.docId, first.kbId, Joined(group), parentSeq, first.startIndex, group[|group| - 1].endIndex,
      first.headingPath, ref.pageStart, ref.pageEnd, SECTION_PARENT_CONTENT_TYPE, ref, flags,
      (ParentMetadata(first, id, ref, flags) + Inherited(first))["child_chunk_ids" := Names(Ids(group))], None)
  }

  /** The children a parent lists. */
  function ChildIds(parent: ChunkRecord): seq<string> {
    if "child_chunk_ids" in parent.metadata && parent.metadata["child_chunk_ids"].Names?
    then parent.metadata["child_chunk_ids"].names else []
  }

  // ---------- runs ----------

  /** The group in progress is `chunks[lo..i]`; a closed group counts from two. */
  function SpansFrom(chunks: seq<ChunkRecord>, lo: nat, i: nat): seq<(nat, nat)>
    requires lo <= i <= |chunks|
    decreases |chunks| - i
  {
    if i == |chunks| then Flushed(lo, i)
    else if !Eligible(chunks[i]) then Flushed(lo, i) + SpansFrom(chunks, i + 1, i + 1)
    else if lo == i || chunks[i - 1].headingPath == chunks[i].headingPath then SpansFrom(chunks, lo, i + 1)
    else Flushed(lo, i) + SpansFrom(chunks, i, i + 1)
  }

  function Flushed(lo: nat, hi: nat): seq<(nat, nat)> {
    if hi - lo >= 2 then [(lo, hi)] else []
  }

  type Builder = (seq<ChunkRecord>, nat) -> ChunkRecord

  /** `_build_one_parent` on a non-empty group. */
  function ParentBuilder(chunks: seq<ChunkRecord>): Builder
    requires chunks != []
  {
    (group: seq<ChunkRecord>, n: nat) => if group == [] then chunks[0] else OneParent(group, n)
  }

  function Slices(chunks: seq<ChunkRecord>, spans: seq<(nat, nat)>): seq<seq<ChunkRecord>>
    requires InRange(chunks, spans)
  {
    seq(|spans|, k requires 0 <= k < |spans| => chunks[spans[k].0..spans[k].1])
  }

  predicate InRange(chunks: seq<ChunkRecord>, spans: seq<(nat, nat)>) {
    forall k :: 0 <= k < |spans| ==> spans[k].0 < spans[k].1 <= |chunks|
  }

  /** Parents are numbered in order. */
  function Build(build: Builder, groups: seq<seq<ChunkRecord>>): seq<ChunkRecord> {
    seq(|groups|, k requires 0 <= k < |groups| => build(groups[k], k))
  }

  lemma {:induction false} SpansInRange(chunks: seq<ChunkRecord>, lo: nat, i: nat)
    requires lo <= i <= |chunks|
    ensures forall k :: 0 <= k < |SpansFrom(chunks, lo, i)| ==>
      lo <= SpansFrom(chunks, lo, i)[k].0 && SpansFrom(chunks, lo, i)[k].0 + 2 <= SpansFrom(chunks, lo, i)[k].1 <= |chunks|
    ensures forall j, k :: 0 <= j < k < |SpansFrom(chunks, lo, i)| ==>
      SpansFrom(chunks, lo, i)[j].1 <= SpansFrom(chunks, lo, i)[k].0
    decreases |chunks| - i
  {
    if i < |chunks| {
      if !Eligible(chunks[i]) {
        SpansInRange(chunks, i + 1, i + 1);
      } else if lo == i || chunks[i - 1].headingPath == chunks[i].headingPath {
        SpansInRange(chunks, lo, i + 1);
      } else {
        SpansInRange(chunks, i, i + 1);
      }
    }
  }

  /** The specification of `_build_section_parents`. */
  function SectionParentsOf(chunks: seq<ChunkRecord>): seq<ChunkRecord> {
    SpansInRange(chunks, 0, 0);
    if chunks == [] then []
    else Build(ParentBuilder(chunks), Slices(chunks, SpansFrom(chunks, 0, 0)))
  }

  /** The grouping loop before chunk `i`: the spans in `done` are closed and the
      current group starts at `lo`. */
  ghost predicate Grouping(chunks: seq<ChunkRecord>, lo: nat, i: nat, done: seq<(nat, nat)>)
    requires lo <= i <= |chunks|
  {
    SpansFrom(chunks, 0, 0) == done + SpansFrom(chunks, lo, i)
  }

  lemma GroupingStep(chunks: seq<ChunkRecord>, lo: nat, i: nat, done: seq<(nat, nat)>)
    requires lo <= i < |chunks| && Grouping(chunks, lo, i, done)
    ensures !Eligible(chunks[i]) ==> Grouping(chunks, i + 1, i + 1, done + Flushed(lo, i))
    ensures Eligible(chunks[i]) && (lo == i || chunks[i - 1].headingPath == chunks[i].headingPath) ==>
      Grouping(chunks, lo, i + 1, done)
    ensures Eligible(chunks[i]) && lo < i && chunks[i - 1].headingPath != chunks[i].headingPath ==>
      Grouping(chunks, i, i + 1, done + Flushed(lo, i))
  {
  }

  method BuildSectionParents(chunks: seq<ChunkRecord>) returns (parents: seq<ChunkRecord>)
    ensures parents == SectionParentsOf(chunks)
  {
    if chunks == [] {
      return [];
    }
    parents := [];
    ghost var build := ParentBuilder(chunks);
    var group: seq<ChunkRecord> := [];
    ghost var lo, done := 0, [];
    for i := 0 to |chunks|
      invariant lo <= i && group == chunks[lo..i]
      invariant Grouping(chunks, lo, i, done)
      invariant InRange(chunks, done) && parents == Build(build, Slices(chunks, done))
    {
      var chunk := chunks[i];
      GroupingStep(chunks, lo, i, done);
      if !IsText(chunk) || chunk.headingPath == [] {
        parents, done := Flush(chunks, parents, group, lo, i, done);
        group, lo := [], i + 1;
      } else if group == [] || group[|group| - 1].headingPath == chunk.headingPath {
        group := group + [chunk];
      } else {
        parents, done := Flush(chunks, parents, group, lo, i, done);
        group, lo := [chunk], i;
      }
    }
    parents, done := Flush(chunks, parents, group, lo, |chunks|, done);
  }

  method Flush(chunks: seq<ChunkRecord>, before: seq<ChunkRecord>, group: seq<ChunkRecord>,
               ghost lo: nat, ghost i: nat, ghost done: seq<(nat, nat)>)
    returns (parents: seq<ChunkRecord>, ghost doneNow: seq<(nat, nat)>)
    requires chunks != [] && lo <= i <= |chunks| && group == chunks[lo..i]
    requires InRange(chunks, done) && before == Build(ParentBuilder(chunks), Slices(chunks, done))
    ensures doneNow == done + Flushed(lo, i) && InRange(chunks, doneNow)
    ensures parents == Build(ParentBuilder(chunks), Slices(chunks, doneNow))
  {
    parents, doneNow := before, done + Flushed(lo, i);
    if |group| >= 2 {
      BuildNext(ParentBuilder(chunks), chunks, done, lo, i);
      var parent := BuildOneParent(chunks, group, |parents|);
      parents := parents + [parent];
    } else {
      assert done + [] == done;
    }
  }

  method BuildOneParent(chunks: seq<ChunkRecord>, group: seq<ChunkRecord>, parentSeq: nat)
    returns (parent: ChunkRecord)
    requires chunks != [] && group != []
    ensures parent == ParentBuilder(chunks)(group, parentSeq)
  {
    parent := OneParent(group, parentSeq);
  }

  lemma BuildNext(build: Builder, chunks: seq<ChunkRecord>, done: seq<(nat, nat)>, lo: nat, hi: nat)
    requires InRange(chunks, done) && lo < hi <= |chunks|
    ensures InRange(chunks, done + [(lo, hi)]) && |Build(build, Slices(chunks, done))| == |done|
    ensures Build(build, Slices(chunks, done + [(lo, hi)]))
         == Build(build, Slices(chunks, done)) + [build(chunks[lo..hi], |done|)]
  {
    var next := done + [(lo, hi)];
    forall k | 0 <= k < |next| ensures next[k].0 < next[k].1 <= |chunks| {
    }
    assert Slices(chunks, next) == Slices(chunks, done) + [chunks[lo..hi]];
  }

  /** Chunks `i` and `i + 1` belong to one section. */
  ghost predicate Together(chunks: seq<ChunkRecord>, i: int) {
    && 0 <= i < |chunks| - 1
    && Eligible(chunks[i]) && Eligible(chunks[i + 1])
    && chunks[i].headingPath == chunks[i + 1].headingPath
  }

  ghost predicate Run(chunks: seq<ChunkRecord>, lo: int, hi: int) {
    && 0 <= lo < hi <= |chunks|
    && Eligible(chunks[lo])
    && forall i :: lo <= i < hi - 1 ==> Together(chunks, i)
  }

  /** A run that cannot be extended on either side. */
  ghost predicate MaximalRun(chunks: seq<ChunkRecord>, lo: int, hi: int) {
    Run(chunks, lo, hi) && !Together(chunks, lo - 1) && !Together(chunks, hi - 1)
  }

  lemma {:induction false} SpansAreMaximal(chunks: seq<ChunkRecord>, lo: nat, i: nat, a: nat, b: nat)
    requires lo <= i <= |chunks|
    requires lo < i ==> Run(chunks, lo, i)
    requires !Together(chunks, lo - 1)
    ensures (a, b) in SpansFrom(chunks, lo, i) <==> a >= lo && b - a >= 2 && MaximalRun(chunks, a, b)
    decreases |chunks| - i
  {
    SpansInRange(chunks, lo, i);
    if a >= lo && MaximalRun(chunks, a, b) {
      RunStart(chunks, lo, i, a, b);
      assert a < i < b ==> Together(chunks, i - 1);
    }
    if i < |chunks| {
      if !Eligible(chunks[i]) {
        SpansAreMaximal(chunks, i + 1, i + 1, a, b);
      } else if lo == i || chunks[i - 1].headingPath == chunks[i].headingPath {
        assert lo < i ==> Eligible(chunks[i - 1]) by { if lo < i - 1 { assert Together(chunks, i - 2); } }
        assert lo < i ==> Together(chunks, i - 1);
        SpansAreMaximal(chunks, lo, i + 1, a, b);
      } else {
        SpansAreMaximal(chunks, i, i + 1, a, b);
      }
    }
  }

  /** A maximal run that starts inside the group in progress is that group's. */
  lemma RunStart(chunks: seq<ChunkRecord>, lo: nat, i: nat, a: nat, b: nat)
    requires lo <= i <= |chunks|
    requires lo < i ==> Run(chunks, lo, i)
    requires a >= lo && MaximalRun(chunks, a, b)
    ensures a == lo < i ==> b >= i
    ensures a == lo || a >= i
  {
    assert lo < a < i ==> Together(chunks, a - 1);
    assert lo <= b - 1 < i - 1 ==> Together(chunks, b - 1);
  }

  /** The parents are exactly the maximal runs of two or more chunks, in order;
      each lists the identifiers of its run and joins its text. */
  lemma ParentsAreMaximalRuns(chunks: seq<ChunkRecord>)
    ensures var spans := SpansFrom(chunks, 0, 0);
      && |SectionParentsOf(chunks)| == |spans|
      && (forall lo: nat, hi: nat :: (lo, hi) in spans <==> hi - lo >= 2 && MaximalRun(chunks, lo, hi))
      && (forall j, k :: 0 <= j < k < |spans| ==> spans[j].1 <= spans[k].0)
      && (forall k :: 0 <= k < |spans| ==>
           && spans[k].0 < spans[k].1 <= |chunks|
           && ChildIds(SectionParentsOf(chunks)[k]) == Ids(chunks[spans[k].0..spans[k].1])
           && SectionParentsOf(chunks)[k].content == Joined(chunks[spans[k].0..spans[k].1])
           && SectionParentsOf(chunks)[k].chunkId == ParentId(chunks[spans[k].0].docId, k))
  {
    var spans := SpansFrom(chunks, 0, 0);
    SpansInRange(chunks, 0, 0);
    forall lo: nat, hi: nat ensures (lo, hi) in spans <==> hi - lo >= 2 && MaximalRun(chunks, lo, hi) {
      SpansAreMaximal(chunks, 0, 0, lo, hi);
    }
    forall k | 0 <= k < |spans|
      ensures ChildIds(SectionParentsOf(chunks)[k]) == Ids(chunks[spans[k].0..spans[k].1])
      ensures SectionParentsOf(chunks)[k].content == Joined(chunks[spans[k].0..spans[k].1])
      ensures SectionParentsOf(chunks)[k].chunkId == ParentId(chunks[spans[k].0].docId, k)
    {
      ParentAt(chunks, spans, k);
    }
  }

  lemma ParentAt(chunks: seq<ChunkRecord>, spans: seq<(nat, nat)>, k: nat)
    requires chunks != [] && InRange(chunks, spans) && k < |spans|
    ensures var parent, group := Build(ParentBuilder(chunks), Slices(chunks, spans))[k], chunks[spans[k].0..spans[k].1];
      && ChildIds(parent) == Ids(group)
      && parent.content == Joined(group)
      && parent.chunkId == ParentId(chunks[spans[k].0].docId, k)
  {
    var group := chunks[spans[k].0..spans[k].1];
    assert Slices(chunks, spans)[k] == group;
    OneParentFacts(group, k);
  }

  lemma OneParentFacts(group: seq<ChunkRecord>, n: nat)
    requires group != []
    ensures var parent := OneParent(group, n);
      && ChildIds(parent) == Ids(group)
      && parent.content == Joined(group)
      && parent.chunkId == ParentId(group[0].docId, n)
  {
  }

  // ---------- links ----------

  /** The last parent that lists the child. */
  function ParentFor(parents: seq<ChunkRecord>, childId: string): Option<string> {
    if parents == [] then None
    else
      var last := parents[|parents| - 1];
      if childId in ChildIds(last) then Some(last.chunkId)
      else ParentFor(parents[..|parents| - 1], childId)
  }

  function LinkOne(parents: seq<ChunkRecord>, c: ChunkRecord): ChunkRecord {
    match ParentFor(parents, c.chunkId)
    case None => c
    case Some(id) => c.(parentChunkId := Some(id), metadata := c.metadata["parent_chunk_id" := Text(id)])
  }

  function Linked(chunks: seq<ChunkRecord>, parents: seq<ChunkRecord>): seq<ChunkRecord> {
    seq(|chunks|, i requires 0 <= i < |chunks| => LinkOne(parents, chunks[i]))
  }

  method LinkChildrenToParents(chunks: seq<ChunkRecord>, parents: seq<ChunkRecord>)
    returns (linked: seq<ChunkRecord>)
    ensures linked == Linked(chunks, parents)
  {
    var childToParent: map<string, string> := map[];
    for p := 0 to |parents|
      invariant forall id :: Lookup(childToParent, id) == ParentFor(parents[..p], id)
    {
      var children := ChildIds(parents[p]);
      ghost var before := childToParent;
      for i := 0 to |children|
        invariant forall id ::
          Lookup(childToParent, id) == if id in children[..i] then Some(parents[p].chunkId) else Lookup(before, id)
      {
        assert children[..i + 1] == children[..i] + [children[i]];
        childToParent := childToParent[children[i] := parents[p].chunkId];
      }
      assert children[..|children|] == children;
      forall id ensures Lookup(childToParent, id) == ParentFor(parents[..p + 1], id) {
        assert parents[..p + 1][..p] == parents[..p] && parents[..p + 1][p] == parents[p];
      }
    }
    assert parents[..|parents|] == parents;
    if childToParent == map[] {
      forall i | 0 <= i < |chunks| ensures LinkOne(parents, chunks[i]) == chunks[i] {
        assert Lookup(childToParent, chunks[i].chunkId) == None;
      }
      assert Linked(chunks, parents) == chunks;
      return chunks;
    }
    linked := [];
    for i := 0 to |chunks|
      invariant linked == Linked(chunks, parents)[..i]
    {
      var chunk := chunks[i];
      var parentId := Lookup(childToParent, chunk.chunkId);
      assert parentId == ParentFor(parents, chunk.chunkId);
      if parentId.None? {
        linked := linked + [chunk];
      } else {
        var metadata := chunk.metadata["parent_chunk_id" := Text(parentId.value)];
        linked := linked + [chunk.(parentChunkId := parentId, metadata := metadata)];
      }
    }
  }

  function Lookup(m: map<string, string>, k: string): Option<string> {
    if k in m then Some(m[k]) else None
  }

  datatype PolicyResult = PolicyResult(chunks: seq<ChunkRecord>, parents: seq<ChunkRecord>)

  method ApplyWithParents(p: Policy, chunks: seq<ChunkRecord>) returns (r: PolicyResult)
    requires p.maxSize >= 1
    ensures r.parents == SectionParentsOf(Applied(p, chunks))
    ensures r.chunks == Linked(Applied(p, chunks), r.parents)
  {
    var finalized := Apply(p, chunks);
    var parents := BuildSectionParents(finalized);
    if parents == [] {
      assert Linked(finalized, []) == finalized;
      return PolicyResult(finalized, []);
    }
    var linked := LinkChildrenToParents(finalized, parents);
    return PolicyResult(linked, parents);
  }

  lemma {:induction false} ParentForListed(parents: seq<ChunkRecord>, id: string, q: nat)
    requires q < |parents| && id in ChildIds(parents[q])
    requires forall j :: q < j < |parents| ==> id !in ChildIds(parents[j])
    ensures ParentFor(parents, id) == Some(parents[q].chunkId)
  {
    if q < |parents| - 1 {
      ParentForListed(parents[..|parents| - 1], id, q);
    }
  }

  lemma {:induction false} ParentForSome(parents: seq<ChunkRecord>, id: string) returns (q: nat)
    requires ParentFor(parents, id).Some?
    ensures q < |parents| && id in ChildIds(parents[q]) && ParentFor(parents, id) == Some(parents[q].chunkId)
  {
    var n := |parents| - 1;
    if id in ChildIds(parents[n]) {
      q := n;
    } else {
      q := ParentForSome(parents[..n], id);
    }
  }

  lemma {:induction false} ParentForNone(parents: seq<ChunkRecord>, id: string)
    requires ParentFor(parents, id) == None
    ensures forall j :: 0 <= j < |parents| ==> id !in ChildIds(parents[j])
  {
    if parents != [] {
      ParentForNone(parents[..|parents| - 1], id);
    }
  }

  ghost predicate Listed(parents: seq<ChunkRecord>, id: string) {
    exists j :: 0 <= j < |parents| && id in ChildIds(parents[j])
  }

  /** With distinct identifiers in one document, a parent lists exactly the chunks of
      its run, and a chunk points to it exactly when it lists the chunk, or when no
      parent does and the chunk pointed to that identifier before. */
  lemma LinksMatchLists(docId: string, chunks: seq<ChunkRecord>, k: nat, q: nat)
    requires Distinct(Ids(chunks))
    requires forall i :: 0 <= i < |chunks| ==> chunks[i].docId == docId
    requires k < |chunks|
    ensures var parents, spans := SectionParentsOf(chunks), SpansFrom(chunks, 0, 0);
      && |parents| == |spans|
      && (q < |parents| ==>
            && (chunks[k].chunkId in ChildIds(parents[q]) <==> spans[q].0 <= k < spans[q].1)
            && (Linked(chunks, parents)[k].parentChunkId == Some(parents[q].chunkId) <==>
                  || chunks[k].chunkId in ChildIds(parents[q])
                  || (!Listed(parents, chunks[k].chunkId) && chunks[k].parentChunkId == Some(parents[q].chunkId))))
  {
    var parents, spans, id := SectionParentsOf(chunks), SpansFrom(chunks, 0, 0), chunks[k].chunkId;
    ParentsAreMaximalRuns(chunks);
    if q >= |parents| {
      return;
    }
    IdInSlice(chunks, spans[q].0, spans[q].1, k);
    forall j | 0 <= j < |parents| && j != q && id in ChildIds(parents[j])
      ensures id !in ChildIds(parents[q])
      ensures parents[j].chunkId != parents[q].chunkId
    {
      IdInSlice(chunks, spans[j].0, spans[j].1, k);
      if parents[j].chunkId == parents[q].chunkId {
        NumberedInjective(docId + ":parent:", j, q);
      }
    }
    LinkPointsTo(parents, chunks[k], q);
  }

  lemma LinkPointsTo(parents: seq<ChunkRecord>, c: ChunkRecord, q: nat)
    requires q < |parents|
    requires forall j :: 0 <= j < |parents| && j != q && c.chunkId in ChildIds(parents[j]) ==>
      c.chunkId !in ChildIds(parents[q]) && parents[j].chunkId != parents[q].chunkId
    ensures LinkOne(parents, c).parentChunkId == Some(parents[q].chunkId) <==>
            || c.chunkId in ChildIds(parents[q])
            || (!Listed(parents, c.chunkId) && c.parentChunkId == Some(parents[q].chunkId))
  {
    if c.chunkId in ChildIds(parents[q]) {
      ParentForListed(parents, c.chunkId, q);
    } else if ParentFor(parents, c.chunkId).Some? {
      var j := ParentForSome(parents, c.chunkId);
    } else {
      ParentForNone(parents, c.chunkId);
    }
  }

  lemma IdInSlice(chunks: seq<ChunkRecord>, lo: nat, hi: nat, k: nat)
    requires lo <= hi <= |chunks| && k < |chunks|
    requires Distinct(Ids(chunks))
    ensures chunks[k].chunkId in Ids(chunks[lo..hi]) <==> lo <= k < hi
  {
    var id, part := chunks[k].chunkId, Ids(chunks[lo..hi]);
    assert Ids(chunks)[k] == id;
    if lo <= k < hi {
      assert part[k - lo] == id;
    }
    if id in part {
      var i :| 0 <= i < |part| && part[i] == id;
      assert Ids(chunks)[lo + i] == chunks[lo..hi][i].chunkId;
    }
  }
}
