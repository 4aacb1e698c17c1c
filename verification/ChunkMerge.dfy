/** The merge pass of the chunk boundary policy: neighbouring short texts under
    one heading become one chunk. */
module ChunkMerge {
  import opened Wrappers
  import opened TotalOrders
  import opened Segmentation
  import opened ChunkModels

  const TEXT_CONTENT_TYPES: set<string> := {"text", "markdown_section"}
  const MERGE_SEPARATOR: string := "\n\n"

  datatype Policy = Policy(maxSize: int, capBytes: int)

  datatype Working = Working(chunk: ChunkRecord, boundaryChanged: bool)

  predicate IsText(c: ChunkRecord) {
    c.contentType in TEXT_CONTENT_TYPES
  }

  function Fresh(chunks: seq<ChunkRecord>): seq<Working> {
    seq(|chunks|, i requires 0 <= i < |chunks| => Working(chunks[i], false))
  }

  function Chunks(ws: seq<Working>): seq<ChunkRecord> {
    seq(|ws|, i requires 0 <= i < |ws| => ws[i].chunk)
  }

  // ---------- merge pass ----------

  predicate CanMerge(p: Policy, prev: ChunkRecord, cur: ChunkRecord) {
    && IsText(prev)
    && IsText(cur)
    && prev.headingPath == cur.headingPath
    && |prev.content| + |MERGE_SEPARATOR| + |cur.content| <= p.maxSize
  }

  function MinPage(a: Option<int>, b: Option<int>): Option<int> {
    match (a, b)
    case (None, _) => b
    case (_, None) => a
    case (Some(x), Some(y)) => Some(if x <= y then x else y)
  }

  function MaxPage(a: Option<int>, b: Option<int>): Option<int> {
    match (a, b)
    case (None, _) => b
    case (_, None) => a
    case (Some(x), Some(y)) => Some(if x >= y then x else y)
  }

  function MergeTwo(prev: ChunkRecord, cur: ChunkRecord): ChunkRecord {
    var content := prev.content + MERGE_SEPARATOR + cur.content;
    prev.(content := content,
          endIndex := prev.startIndex + |content|,
          pageStart := MinPage(prev.pageStart, cur.pageStart),
          pageEnd := MaxPage(prev.pageEnd, cur.pageEnd),
          qualityFlags := SortedSet(prev.qualityFlags + cur.qualityFlags))
  }

  /** The specification of the merge loop: `last` is `merged[-1]`. */
  function MergeFrom(p: Policy, last: Working, rest: seq<Working>): seq<Working>
    decreases |rest|
  {
    if rest == [] then [last]
    else if CanMerge(p, last.chunk, rest[0].chunk) then
      MergeFrom(p, Working(MergeTwo(last.chunk, rest[0].chunk), true), rest[1..])
    else
      [last] + MergeFrom(p, rest[0], rest[1..])
  }

  function MergeAll(p: Policy, ws: seq<Working>): seq<Working> {
    if ws == [] then [] else MergeFrom(p, ws[0], ws[1..])
  }

  method MergePass(p: Policy, workings: seq<Working>) returns (merged: seq<Working>)
    ensures merged == MergeAll(p, workings)
  {
    merged := [];
    for i := 0 to |workings|
      invariant i == 0 <==> merged == []
      invariant i > 0 ==>
        MergeAll(p, workings)
        == merged[..|merged| - 1] + MergeFrom(p, merged[|merged| - 1], workings[i..])
    {
      var working := workings[i];
      if merged == [] {
        merged := merged + [working];
      } else {
        var prev := merged[|merged| - 1];
        assert workings[i..][0] == working && workings[i..][1..] == workings[i + 1..];
        if CanMerge(p, prev.chunk, working.chunk) {
          merged := merged[|merged| - 1 := Working(MergeTwo(prev.chunk, working.chunk), true)];
        } else {
          assert merged == merged[..|merged| - 1] + [prev];
          merged := merged + [working];
        }
      }
    }
  }

  /** The text of a group: its contents joined by the separator. */
  function Joined(g: seq<ChunkRecord>): string {
    if g == [] then ""
    else if |g| == 1 then g[0].content
    else Joined(g[..|g| - 1]) + MERGE_SEPARATOR + g[|g| - 1].content
  }

  /** A group that may become one chunk. */
  predicate MayJoin(p: Policy, g: seq<ChunkRecord>) {
    |g| >= 2 ==>
      && |Joined(g)| <= p.maxSize
      && forall k :: 0 <= k < |g| ==> IsText(g[k]) && g[k].headingPath == g[0].headingPath
  }

  function GroupOk(p: Policy): seq<ChunkRecord> -> bool {
    g => MayJoin(p, g)
  }

  /** The chunk a group becomes. */
  function Fold(g: seq<ChunkRecord>): Working
    requires g != []
  {
    if |g| == 1 then Working(g[0], false)
    else Working(MergeTwo(Fold(g[..|g| - 1]).chunk, g[|g| - 1]), true)
  }

  function FoldAll(groups: seq<seq<ChunkRecord>>): seq<Working>
    requires forall k :: 0 <= k < |groups| ==> groups[k] != []
  {
    if groups == [] then [] else [Fold(groups[0])] + FoldAll(groups[1..])
  }

  /** The consecutive groups the merge pass forms. */
  function Groups(p: Policy, chunks: seq<ChunkRecord>): seq<seq<ChunkRecord>> {
    Segment(GroupOk(p), [], chunks)
  }

  lemma {:induction false} FoldContent(g: seq<ChunkRecord>)
    requires g != []
    ensures var c := Fold(g).chunk;
      && c.content == Joined(g)
      && c.contentType == g[0].contentType && c.headingPath == g[0].headingPath
      && c.docId == g[0].docId && c.startIndex == g[0].startIndex
      && c.chunkId == g[0].chunkId && c.parentChunkId == g[0].parentChunkId
      && (|g| >= 2 ==> c.endIndex == c.startIndex + |c.content|)
      && (|g| == 1 ==> c == g[0])
    ensures Fold(g).boundaryChanged <==> |g| >= 2
  {
    if |g| >= 2 {
      FoldContent(g[..|g| - 1]);
    }
  }

  function StartPages(g: seq<ChunkRecord>): seq<Option<int>> {
    seq(|g|, k requires 0 <= k < |g| => g[k].pageStart)
  }

  function EndPages(g: seq<ChunkRecord>): seq<Option<int>> {
    seq(|g|, k requires 0 <= k < |g| => g[k].pageEnd)
  }

  function Earliest(pages: seq<Option<int>>): Option<int>
    requires pages != []
  {
    var n := |pages| - 1;
    if n == 0 then pages[0] else MinPage(Earliest(pages[..n]), pages[n])
  }

  function Latest(pages: seq<Option<int>>): Option<int>
    requires pages != []
  {
    var n := |pages| - 1;
    if n == 0 then pages[0] else MaxPage(Latest(pages[..n]), pages[n])
  }

  lemma {:induction false} FoldedPages(g: seq<ChunkRecord>)
    requires g != []
    ensures Fold(g).chunk.pageStart == Earliest(StartPages(g)) && Fold(g).chunk.pageEnd == Latest(EndPages(g))
  {
    if |g| > 1 {
      var n := |g| - 1;
      FoldedPages(g[..n]);
      assert StartPages(g)[..n] == StartPages(g[..n]) && EndPages(g)[..n] == EndPages(g[..n]);
    }
  }

  lemma {:induction false} EarliestExact(pages: seq<Option<int>>)
    requires pages != []
    ensures Earliest(pages) in pages
    ensures forall k :: 0 <= k < |pages| && pages[k].Some? ==>
      Earliest(pages).Some? && Earliest(pages).value <= pages[k].value
  {
    if |pages| > 1 {
      var n := |pages| - 1;
      EarliestExact(pages[..n]);
      assert pages == pages[..n] + [pages[n]];
    }
  }

  lemma {:induction false} LatestExact(pages: seq<Option<int>>)
    requires pages != []
    ensures Latest(pages) in pages
    ensures forall k :: 0 <= k < |pages| && pages[k].Some? ==>
      Latest(pages).Some? && Latest(pages).value >= pages[k].value
  {
    if |pages| > 1 {
      var n := |pages| - 1;
      LatestExact(pages[..n]);
      assert pages == pages[..n] + [pages[n]];
    }
  }

  /** What a group keeps besides its text: the earliest first page and the latest
      last page. */
  lemma FoldPages(g: seq<ChunkRecord>, k: nat)
    requires k < |g|
    ensures var c := Fold(g).chunk;
      && (g[k].pageStart.Some? ==> c.pageStart.Some? && c.pageStart.value <= g[k].pageStart.value)
      && (g[k].pageEnd.Some? ==> c.pageEnd.Some? && c.pageEnd.value >= g[k].pageEnd.value)
      && (exists j :: 0 <= j < |g| && c.pageStart == g[j].pageStart)
      && (exists j :: 0 <= j < |g| && c.pageEnd == g[j].pageEnd)
  {
    FoldedPages(g);
    EarliestExact(StartPages(g));
    LatestExact(EndPages(g));
    assert StartPages(g)[k] == g[k].pageStart && EndPages(g)[k] == g[k].pageEnd;
  }

  /** And the union of the quality flags. */
  lemma {:induction false} FoldFlags(g: seq<ChunkRecord>, f: string)
    requires g != []
    ensures f in Fold(g).chunk.qualityFlags <==> exists j :: 0 <= j < |g| && f in g[j].qualityFlags
  {
    if |g| > 1 {
      var n := |g| - 1;
      FoldFlags(g[..n], f);
      SortedSetExact(Fold(g[..n]).chunk.qualityFlags + g[n].qualityFlags);
    }
  }

  lemma MayJoinNext(p: Policy, g: seq<ChunkRecord>, c: ChunkRecord)
    requires g != [] && MayJoin(p, g)
    ensures MayJoin(p, g + [c]) <==> CanMerge(p, Fold(g).chunk, c)
  {
    FoldContent(g);
    var h := g + [c];
    assert h[..|h| - 1] == g;
    if CanMerge(p, Fold(g).chunk, c) {
      forall k | 0 <= k < |h| ensures IsText(h[k]) && h[k].headingPath == h[0].headingPath {
        assert k < |g| ==> h[k] == g[k];
      }
    }
    if MayJoin(p, h) {
      assert h[0] == g[0] && h[|g|] == c;
    }
  }

  lemma {:induction false} MergeFromGroups(p: Policy, g: seq<ChunkRecord>, rest: seq<ChunkRecord>)
    requires g != [] && MayJoin(p, g)
    ensures forall k :: 0 <= k < |Segment(GroupOk(p), g, rest)| ==> Segment(GroupOk(p), g, rest)[k] != []
    ensures MergeFrom(p, Fold(g), Fresh(rest)) == FoldAll(Segment(GroupOk(p), g, rest))
    decreases |rest|
  {
    if rest != [] {
      var c := rest[0];
      MayJoinNext(p, g, c);
      assert Fresh(rest)[1..] == Fresh(rest[1..]);
      if CanMerge(p, Fold(g).chunk, c) {
        assert (g + [c])[..|g|] == g;
        MergeFromGroups(p, g + [c], rest[1..]);
      } else {
        MergeFromGroups(p, [c], rest[1..]);
        var tail := Segment(GroupOk(p), [c], rest[1..]);
        assert ([g] + tail)[1..] == tail;
      }
    }
  }

  lemma {:induction false} JoinedLength(g: seq<ChunkRecord>, i: nat, j: nat)
    requires i <= j <= |g|
    ensures |Joined(g[i..j])| <= |Joined(g)|
    decreases |g|
  {
    if i == 0 && j == |g| {
      assert g[i..j] == g;
    } else if j < |g| {
      assert g[..|g| - 1][i..j] == g[i..j];
      JoinedLength(g[..|g| - 1], i, j);
    } else if i == j {
      assert g[i..j] == [];
    } else {
      var front := g[..|g| - 1];
      assert g[i..j][..j - i - 1] == front[i..];
      assert front[i..] == front[i..|front|];
      JoinedLength(front, i, |front|);
    }
  }

  lemma GroupOkHereditary(p: Policy)
    ensures Hereditary(GroupOk(p))
  {
    forall g: seq<ChunkRecord>, i: nat, j: nat | i <= j <= |g| && GroupOk(p)(g)
      ensures GroupOk(p)(g[i..j])
    {
      JoinedLength(g, i, j);
    }
  }

  /** The merge pass partitions its input into consecutive groups; a group of
      one passes through, a larger one is all text under one heading, joined by
      the separator and within the limit. */
  lemma MergePassGroups(p: Policy, chunks: seq<ChunkRecord>)
    ensures var groups := Groups(p, chunks);
      && Concat(groups) == chunks
      && (forall k :: 0 <= k < |groups| ==> groups[k] != [] && MayJoin(p, groups[k]))
      && MergeAll(p, Fresh(chunks)) == FoldAll(groups)
  {
    var ok := GroupOk(p);
    SegmentConcat(ok, [], chunks);
    SegmentFits(ok, [], chunks);
    if chunks != [] {
      assert [] + [chunks[0]] == [chunks[0]];
      assert Fresh(chunks)[1..] == Fresh(chunks[1..]);
      MergeFromGroups(p, [chunks[0]], chunks[1..]);
    }
  }

  /** No partition into groups that may be joined has fewer groups. */
  lemma MergePassFewest(p: Policy, chunks: seq<ChunkRecord>, other: seq<seq<ChunkRecord>>)
    requires Concat(other) == chunks
    requires forall k :: 0 <= k < |other| ==> MayJoin(p, other[k])
    ensures |MergeAll(p, Fresh(chunks))| <= |other|
  {
    MergePassGroups(p, chunks);
    FoldAllAt(Groups(p, chunks));
    GroupOkHereditary(p);
    GreedyFewest(GroupOk(p), chunks, other);
  }

  lemma {:induction false} FoldAllAt(groups: seq<seq<ChunkRecord>>)
    requires forall k :: 0 <= k < |groups| ==> groups[k] != []
    ensures |FoldAll(groups)| == |groups|
    ensures forall k :: 0 <= k < |groups| ==> FoldAll(groups)[k] == Fold(groups[k])
  {
    if groups != [] {
      FoldAllAt(groups[1..]);
    }
  }

  /** No two neighbours can be merged. */
  ghost predicate NoMergeable(p: Policy, chunks: seq<ChunkRecord>) {
    forall k :: 0 <= k < |chunks| - 1 ==> !CanMerge(p, chunks[k], chunks[k + 1])
  }

  /** `c` can only be harder to merge onto `prev` than `b` is. */
  ghost predicate Extends(c: ChunkRecord, b: ChunkRecord) {
    c.contentType == b.contentType && c.headingPath == b.headingPath && |c.content| >= |b.content|
  }

  lemma {:induction false} MergeFromStable(p: Policy, last: Working, rest: seq<Working>)
    ensures var out := MergeFrom(p, last, rest);
      && out != [] && Extends(out[0].chunk, last.chunk)
      && NoMergeable(p, Chunks(out))
    decreases |rest|
  {
    if rest != [] {
      if CanMerge(p, last.chunk, rest[0].chunk) {
        MergeFromStable(p, Working(MergeTwo(last.chunk, rest[0].chunk), true), rest[1..]);
      } else {
        MergeFromStable(p, rest[0], rest[1..]);
        var tail := MergeFrom(p, rest[0], rest[1..]);
        var all := Chunks([last] + tail);
        forall k | 0 <= k < |all| - 1 ensures !CanMerge(p, all[k], all[k + 1]) {
          assert k > 0 ==> all[k] == Chunks(tail)[k - 1] && all[k + 1] == Chunks(tail)[k];
        }
      }
    }
  }

  lemma {:induction false} MergeFromNothing(p: Policy, c: ChunkRecord, rest: seq<ChunkRecord>)
    ensures MergeFrom(p, Working(c, false), Fresh(rest)) == Fresh([c] + rest)
      <==> NoMergeable(p, [c] + rest)
    decreases |rest|
  {
    FreshThen(c, rest);
    NoMergeableThen(p, c, rest);
    if rest != [] {
      assert [rest[0]] + rest[1..] == rest && Fresh(rest)[1..] == Fresh(rest[1..]);
      if CanMerge(p, c, rest[0]) {
        MergeFromKeepsFlag(p, Working(MergeTwo(c, rest[0]), true), Fresh(rest[1..]));
      } else {
        MergeFromNothing(p, rest[0], rest[1..]);
        assert ([Working(c, false)] + Fresh(rest))[1..] == Fresh(rest);
        assert ([Working(c, false)] + MergeFrom(p, Working(rest[0], false), Fresh(rest[1..])))[1..]
            == MergeFrom(p, Working(rest[0], false), Fresh(rest[1..]));
      }
    }
  }

  lemma FreshThen(c: ChunkRecord, rest: seq<ChunkRecord>)
    ensures Fresh([c] + rest) == [Working(c, false)] + Fresh(rest)
  {
  }

  lemma NoMergeableThen(p: Policy, c: ChunkRecord, rest: seq<ChunkRecord>)
    ensures NoMergeable(p, [c] + rest) <==> (rest == [] || !CanMerge(p, c, rest[0])) && NoMergeable(p, rest)
  {
    var all := [c] + rest;
    assert forall k :: 0 <= k < |rest| ==> all[k + 1] == rest[k];
    if NoMergeable(p, all) {
      forall k | 0 <= k < |rest| - 1 ensures !CanMerge(p, rest[k], rest[k + 1]) {
        assert !CanMerge(p, all[k + 1], all[k + 2]);
      }
      assert rest != [] ==> !CanMerge(p, all[0], all[1]);
    }
  }

  lemma {:induction false} MergeFromKeepsFlag(p: Policy, last: Working, rest: seq<Working>)
    requires last.boundaryChanged
    ensures MergeFrom(p, last, rest) != [] && MergeFrom(p, last, rest)[0].boundaryChanged
    decreases |rest|
  {
    if rest != [] && CanMerge(p, last.chunk, rest[0].chunk) {
      MergeFromKeepsFlag(p, Working(MergeTwo(last.chunk, rest[0].chunk), true), rest[1..]);
    }
  }

  /** The pass changes nothing exactly when no two neighbours can be merged. */
  lemma MergePassNothing(p: Policy, chunks: seq<ChunkRecord>)
    ensures MergeAll(p, Fresh(chunks)) == Fresh(chunks) <==> NoMergeable(p, chunks)
  {
    if chunks != [] {
      assert Fresh(chunks)[1..] == Fresh(chunks[1..]);
      assert [chunks[0]] + chunks[1..] == chunks;
      MergeFromNothing(p, chunks[0], chunks[1..]);
    }
  }

  /** Running the merge pass on its own result changes nothing. */
  lemma MergePassFixpoint(p: Policy, chunks: seq<ChunkRecord>)
    ensures var once := Chunks(MergeAll(p, Fresh(chunks)));
      MergeAll(p, Fresh(once)) == Fresh(once)
  {
    if chunks != [] {
      MergeFromStable(p, Fresh(chunks)[0], Fresh(chunks)[1..]);
    }
    MergePassNothing(p, Chunks(MergeAll(p, Fresh(chunks))));
  }
}
