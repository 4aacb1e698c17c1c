/** The chunk boundary policy end to end: merge, resplit long text, cap bytes,
    renumber. */
module ChunkPolicy {
  import opened TotalOrders
  import opened Segmentation
  import opened ChunkText
  import opened ChunkModels
  import opened ChunkMerge

  const ATOMIC_SPLIT_QUALITY_FLAG: string := "atomic_split_by_size"

  // ---------- resplit and byte cap ----------

  /** The chunks that replace `chunk`: consecutive pieces from `cursor` on. */
  function PieceChunks(chunk: ChunkRecord, flags: seq<string>, pieces: seq<string>, cursor: int): seq<Working>
    decreases |pieces|
  {
    if pieces == [] then
      []
    else
      [PieceChunk(chunk, flags, pieces[0], cursor)] + PieceChunks(chunk, flags, pieces[1..], cursor + |pieces[0]|)
  }

  function PieceChunk(chunk: ChunkRecord, flags: seq<string>, piece: string, cursor: int): Working {
    Working(chunk.(content := piece, startIndex := cursor, endIndex := cursor + |piece|, qualityFlags := flags), true)
  }

  function ResplitOne(p: Policy, w: Working): seq<Working> {
    if !IsText(w.chunk) || |w.chunk.content| <= p.maxSize then [w]
    else PieceChunks(w.chunk, w.chunk.qualityFlags, SplitPieces(w.chunk.content, p.maxSize), w.chunk.startIndex)
  }

  function CapOne(p: Policy, w: Working): seq<Working> {
    if Bytes(w.chunk.content) <= p.capBytes then [w]
    else PieceChunks(w.chunk, SortedSet(w.chunk.qualityFlags + [ATOMIC_SPLIT_QUALITY_FLAG]),
                     BytePieces(w.chunk.content, p.capBytes), w.chunk.startIndex)
  }

  function Resplitter(p: Policy): Working -> seq<Working> {
    w => ResplitOne(p, w)
  }

  function Capper(p: Policy): Working -> seq<Working> {
    w => CapOne(p, w)
  }

  /** Each working chunk is replaced by its own list. */
  function Expand(f: Working -> seq<Working>, ws: seq<Working>): seq<Working> {
    if ws == [] then [] else f(ws[0]) + Expand(f, ws[1..])
  }

  method EmitPieces(out: seq<Working>, chunk: ChunkRecord, flags: seq<string>, pieces: seq<string>)
    returns (r: seq<Working>)
    ensures r == out + PieceChunks(chunk, flags, pieces, chunk.startIndex)
  {
    r := out;
    var cursor := chunk.startIndex;
    for i := 0 to |pieces|
      invariant out + PieceChunks(chunk, flags, pieces, chunk.startIndex)
             == r + PieceChunks(chunk, flags, pieces[i..], cursor)
    {
      var piece := pieces[i];
      assert pieces[i..][0] == piece && pieces[i..][1..] == pieces[i + 1..];
      r := r + [PieceChunk(chunk, flags, piece, cursor)];
      cursor := cursor + |piece|;
    }
  }

  method ResplitPass(p: Policy, workings: seq<Working>) returns (out: seq<Working>)
    requires p.maxSize >= 1
    ensures out == Expand(Resplitter(p), workings)
  {
    out := [];
    ghost var f := Resplitter(p);
    for i := 0 to |workings|
      invariant Expand(f, workings) == out + Expand(f, workings[i..])
    {
      var working := workings[i];
      var chunk := working.chunk;
      ghost var done := out;
      if chunk.contentType !in TEXT_CONTENT_TYPES {
        out := out + [working];
      } else if |chunk.content| <= p.maxSize {
        out := out + [working];
      } else {
        var pieces := SplitText(chunk.content, p.maxSize);
        out := EmitPieces(out, chunk, chunk.qualityFlags, pieces);
      }
      assert out == done + f(working);
      ExpandStep(f, done, workings, i);
    }
  }

  method AtomicHardcapPass(p: Policy, workings: seq<Working>) returns (out: seq<Working>)
    ensures out == Expand(Capper(p), workings)
  {
    out := [];
    ghost var f := Capper(p);
    for i := 0 to |workings|
      invariant Expand(f, workings) == out + Expand(f, workings[i..])
    {
      var working := workings[i];
      var chunk := working.chunk;
      ghost var done := out;
      if Bytes(chunk.content) <= p.capBytes {
        out := out + [working];
      } else {
        var mergedFlags := SortedSet(chunk.qualityFlags + [ATOMIC_SPLIT_QUALITY_FLAG]);
        var pieces := ByteSafeSplit(chunk.content, p.capBytes);
        out := EmitPieces(out, chunk, mergedFlags, pieces);
      }
      assert out == done + f(working);
      ExpandStep(f, done, workings, i);
    }
  }

  lemma ExpandStep(f: Working -> seq<Working>, done: seq<Working>, ws: seq<Working>, i: nat)
    requires i < |ws|
    ensures done + Expand(f, ws[i..]) == done + f(ws[i]) + Expand(f, ws[i + 1..])
  {
    assert ws[i..][1..] == ws[i + 1..];
  }

  // ---------- finalize ----------

  function CpId(docId: string, n: nat): string {
    docId + ":cp" + Padded(n)
  }

  function FinalId(w: Working, n: nat): string {
    if w.boundaryChanged then CpId(w.chunk.docId, n) else w.chunk.chunkId
  }

  function FinalOne(w: Working, n: nat): ChunkRecord {
    var c := w.chunk;
    var id := FinalId(w, n);
    var ref := c.sourceRef.(chunkId := id);
    c.(chunkId := id,
       chunkIndex := n,
       sourceRef := ref,
       metadata := c.metadata["chunk_id" := Text(id)]
                             ["heading_path" := Names(c.headingPath)]
                             ["page_start" := Page(c.pageStart)]
                             ["page_end" := Page(c.pageEnd)]
                             ["quality_flags" := Names(c.qualityFlags)]
                             ["content_type" := Text(c.contentType)]
                             ["source_ref" := Source(ref)])
  }

  function FinalAll(ws: seq<Working>, n: nat): seq<ChunkRecord>
    decreases |ws|
  {
    if ws == [] then [] else [FinalOne(ws[0], n)] + FinalAll(ws[1..], n + 1)
  }

  method Finalize(workings: seq<Working>) returns (finalized: seq<ChunkRecord>)
    ensures finalized == FinalAll(workings, 0)
  {
    finalized := [];
    for newIndex := 0 to |workings|
      invariant FinalAll(workings, 0) == finalized + FinalAll(workings[newIndex..], newIndex)
    {
      var working := workings[newIndex];
      assert workings[newIndex..][0] == working && workings[newIndex..][1..] == workings[newIndex + 1..];
      finalized := finalized + [FinalOne(working, newIndex)];
    }
  }

  /** The working list just before numbering. */
  function Cut3(p: Policy, chunks: seq<ChunkRecord>): seq<Working> {
    Expand(Capper(p), Expand(Resplitter(p), MergeAll(p, Fresh(chunks))))
  }

  /** The specification of `apply`. */
  function Applied(p: Policy, chunks: seq<ChunkRecord>): seq<ChunkRecord> {
    FinalAll(Cut3(p, chunks), 0)
  }

  method Apply(p: Policy, chunks: seq<ChunkRecord>) returns (finalized: seq<ChunkRecord>)
    requires p.maxSize >= 1
    ensures finalized == Applied(p, chunks)
  {
    if chunks == [] {
      return [];
    }
    var workings := Fresh(chunks);
    workings := MergePass(p, workings);
    workings := ResplitPass(p, workings);
    workings := AtomicHardcapPass(p, workings);
    finalized := Finalize(workings);
  }

  lemma {:induction false} FinalAt(ws: seq<Working>, n: nat)
    ensures |FinalAll(ws, n)| == |ws|
    ensures forall k :: 0 <= k < |ws| ==> FinalAll(ws, n)[k] == FinalOne(ws[k], n + k)
    decreases |ws|
  {
    if ws != [] {
      FinalAt(ws[1..], n + 1);
    }
  }

  // ---------- conservation and bounds ----------

  /** All the text, in order. */
  function WholeText(ws: seq<Working>): string {
    if ws == [] then "" else ws[0].chunk.content + WholeText(ws[1..])
  }

  lemma {:induction false} WholeTextAppend(a: seq<Working>, b: seq<Working>)
    ensures WholeText(a + b) == WholeText(a) + WholeText(b)
  {
    if a == [] {
      assert a + b == b;
    } else {
      assert (a + b)[1..] == a[1..] + b;
      WholeTextAppend(a[1..], b);
    }
  }

  /** A chunk spans exactly its content. */
  ghost predicate Spans(c: ChunkRecord) {
    c.endIndex - c.startIndex == |c.content|
  }

  /** `ws` replaces `c`: same kind of chunk, same text, laid end to end from the
      same start. */
  ghost predicate Replaces(ws: seq<Working>, c: ChunkRecord, cursor: int) {
    forall k :: 0 <= k < |ws| ==>
      && ws[k].boundaryChanged
      && ws[k].chunk == c.(content := ws[k].chunk.content, startIndex := ws[k].chunk.startIndex,
                           endIndex := ws[k].chunk.endIndex, qualityFlags := ws[k].chunk.qualityFlags)
      && Spans(ws[k].chunk)
      && ws[k].chunk.startIndex == if k == 0 then cursor else ws[k - 1].chunk.endIndex
  }

  lemma {:induction false} PieceChunksExact(chunk: ChunkRecord, flags: seq<string>, pieces: seq<string>, cursor: int)
    ensures var ws := PieceChunks(chunk, flags, pieces, cursor);
      && |ws| == |pieces|
      && (forall k :: 0 <= k < |ws| ==> ws[k].chunk.content == pieces[k] && ws[k].chunk.qualityFlags == flags)
      && WholeText(ws) == Concat(pieces)
      && Replaces(ws, chunk, cursor)
    decreases |pieces|
  {
    if pieces != [] {
      PieceChunksExact(chunk, flags, pieces[1..], cursor + |pieces[0]|);
      var tail := PieceChunks(chunk, flags, pieces[1..], cursor + |pieces[0]|);
      assert ([PieceChunk(chunk, flags, pieces[0], cursor)] + tail)[1..] == tail;
    }
  }

  ghost predicate TextWithin(p: Policy, w: Working) {
    IsText(w.chunk) ==> |w.chunk.content| <= p.maxSize
  }

  ghost predicate BytesWithin(p: Policy, w: Working) {
    Bytes(w.chunk.content) <= p.capBytes
  }

  /** `ws` is `w` itself, or new chunks that replace it. */
  ghost predicate Refines(ws: seq<Working>, w: Working) {
    && WholeText(ws) == w.chunk.content
    && (ws == [w] || (ws != [] && Replaces(ws, w.chunk, w.chunk.startIndex)))
  }

  /** One chunk through resplit: nothing lost, every text within the limit. */
  lemma ResplitOneExact(p: Policy, w: Working)
    requires p.maxSize >= 1
    ensures Refines(ResplitOne(p, w), w)
    ensures forall v :: v in ResplitOne(p, w) ==> TextWithin(p, v)
  {
    if IsText(w.chunk) && |w.chunk.content| > p.maxSize {
      var pieces := SplitPieces(w.chunk.content, p.maxSize);
      SplitTextCorrect(w.chunk.content, p.maxSize);
      PieceChunksExact(w.chunk, w.chunk.qualityFlags, pieces, w.chunk.startIndex);
    } else {
      assert WholeText([w]) == w.chunk.content + WholeText([]);
    }
  }

  /** One chunk through the byte cap: nothing lost, every piece within the cap,
      and no text longer than before. */
  lemma CapOneExact(p: Policy, w: Working)
    requires p.capBytes >= 4
    ensures Refines(CapOne(p, w), w)
    ensures forall v :: v in CapOne(p, w) ==> BytesWithin(p, v) && |v.chunk.content| <= |w.chunk.content|
  {
    if Bytes(w.chunk.content) > p.capBytes {
      var pieces := BytePieces(w.chunk.content, p.capBytes);
      ByteSafeSplitCorrect(w.chunk.content, p.capBytes);
      PieceChunksExact(w.chunk, SortedSet(w.chunk.qualityFlags + [ATOMIC_SPLIT_QUALITY_FLAG]), pieces,
                       w.chunk.startIndex);
      forall k | 0 <= k < |pieces| ensures |pieces[k]| <= |w.chunk.content| {
        PartLength(pieces, k);
      }
    } else {
      assert WholeText([w]) == w.chunk.content + WholeText([]);
    }
  }

  lemma {:induction false} PartLength(parts: seq<string>, k: nat)
    requires k < |parts|
    ensures |parts[k]| <= |Concat(parts)|
  {
    if k > 0 {
      PartLength(parts[1..], k - 1);
    }
  }

  lemma {:induction false} ExpandConserves(f: Working -> seq<Working>, ws: seq<Working>)
    requires forall w :: WholeText(f(w)) == w.chunk.content
    ensures WholeText(Expand(f, ws)) == WholeText(ws)
  {
    if ws != [] {
      ExpandConserves(f, ws[1..]);
      WholeTextAppend(f(ws[0]), Expand(f, ws[1..]));
    }
  }

  lemma {:induction false} ExpandMember(f: Working -> seq<Working>, ws: seq<Working>, v: Working) returns (w: Working)
    requires v in Expand(f, ws)
    ensures w in ws && v in f(w)
  {
    if v in f(ws[0]) {
      w := ws[0];
    } else {
      w := ExpandMember(f, ws[1..], v);
    }
  }

  lemma {:induction false} ExpandSame(f: Working -> seq<Working>, ws: seq<Working>)
    requires forall w :: w in ws ==> f(w) == [w]
    ensures Expand(f, ws) == ws
  {
    if ws != [] {
      ExpandSame(f, ws[1..]);
      assert [ws[0]] + ws[1..] == ws;
    }
  }

  /** Resplit and cap together keep the text, for any cap. */
  lemma CutConserves(p: Policy, ws: seq<Working>)
    requires p.maxSize >= 1
    ensures WholeText(Expand(Capper(p), Expand(Resplitter(p), ws))) == WholeText(ws)
  {
    var f, g := Resplitter(p), Capper(p);
    forall w ensures WholeText(f(w)) == w.chunk.content { ResplitOneExact(p, w); }
    forall w ensures WholeText(g(w)) == w.chunk.content { CapOneConserves(p, w); }
    ExpandConserves(f, ws);
    ExpandConserves(g, Expand(f, ws));
  }

  lemma CapOneConserves(p: Policy, w: Working)
    ensures WholeText(CapOne(p, w)) == w.chunk.content
  {
    if Bytes(w.chunk.content) > p.capBytes {
      var pieces := BytePieces(w.chunk.content, p.capBytes);
      ByteSafeSplitCorrect(w.chunk.content, p.capBytes);
      PieceChunksExact(w.chunk, SortedSet(w.chunk.qualityFlags + [ATOMIC_SPLIT_QUALITY_FLAG]), pieces,
                       w.chunk.startIndex);
    } else {
      assert WholeText([w]) == w.chunk.content + WholeText([]);
    }
  }

  /** Resplit and cap together: both limits hold; spans and documents carry over. */
  lemma CutExactly(p: Policy, ws: seq<Working>)
    requires p.maxSize >= 1 && p.capBytes >= 4
    ensures var out := Expand(Capper(p), Expand(Resplitter(p), ws));
      && (forall v :: v in out ==> TextWithin(p, v) && BytesWithin(p, v))
      && ((forall w :: w in ws ==> Spans(w.chunk)) ==> forall v :: v in out ==> Spans(v.chunk))
  {
    var f, g := Resplitter(p), Capper(p);
    forall w ensures Refines(f(w), w) { ResplitOneExact(p, w); }
    forall w ensures Refines(g(w), w) { CapOneExact(p, w); }
    forall v | v in Expand(g, Expand(f, ws))
      ensures TextWithin(p, v) && BytesWithin(p, v)
      ensures (forall w :: w in ws ==> Spans(w.chunk)) ==> Spans(v.chunk)
    {
      var u := ExpandMember(g, Expand(f, ws), v);
      var w := ExpandMember(f, ws, u);
      ResplitOneExact(p, w);
      CapOneExact(p, u);
    }
  }

  lemma {:induction false} MergeFromSpans(p: Policy, last: Working, rest: seq<Working>)
    requires Spans(last.chunk) && forall w :: w in rest ==> Spans(w.chunk)
    ensures forall v :: v in MergeFrom(p, last, rest) ==> Spans(v.chunk)
    decreases |rest|
  {
    if rest != [] {
      if CanMerge(p, last.chunk, rest[0].chunk) {
        MergeFromSpans(p, Working(MergeTwo(last.chunk, rest[0].chunk), true), rest[1..]);
      } else {
        MergeFromSpans(p, rest[0], rest[1..]);
      }
    }
  }

  /** End to end, for any cap: the text of the final chunks is the text after
      merging. */
  lemma ApplyConserves(p: Policy, chunks: seq<ChunkRecord>)
    requires p.maxSize >= 1
    ensures WholeText(Fresh(Applied(p, chunks))) == WholeText(MergeAll(p, Fresh(chunks)))
  {
    CutConserves(p, MergeAll(p, Fresh(chunks)));
    FinalWholeText(Cut3(p, chunks), 0);
  }

  /** Every final text chunk is within `maxSize` characters, every chunk within the
      cap, and chunks that span their content still do. */
  lemma ApplyBounds(p: Policy, chunks: seq<ChunkRecord>)
    requires p.maxSize >= 1 && p.capBytes >= 4
    ensures var out := Applied(p, chunks);
      && (forall c :: c in out && IsText(c) ==> |c.content| <= p.maxSize)
      && (forall c :: c in out ==> Bytes(c.content) <= p.capBytes)
      && ((forall c :: c in chunks ==> Spans(c)) ==> forall c :: c in out ==> Spans(c))
  {
    var merged := MergeAll(p, Fresh(chunks));
    var ws := Cut3(p, chunks);
    CutExactly(p, merged);
    if chunks != [] && forall c :: c in chunks ==> Spans(c) {
      MergeFromSpans(p, Fresh(chunks)[0], Fresh(chunks)[1..]);
    }
    forall c | c in Applied(p, chunks)
      ensures IsText(c) ==> |c.content| <= p.maxSize
      ensures Bytes(c.content) <= p.capBytes
      ensures (forall d :: d in chunks ==> Spans(d)) ==> Spans(c)
    {
      var w := FinalMember(ws, 0, c);
      assert TextWithin(p, w) && BytesWithin(p, w);
    }
  }

  lemma {:induction false} FinalMember(ws: seq<Working>, n: nat, c: ChunkRecord) returns (w: Working)
    requires c in FinalAll(ws, n)
    ensures w in ws && c == w.chunk.(chunkId := c.chunkId, chunkIndex := c.chunkIndex, sourceRef := c.sourceRef,
                                     metadata := c.metadata)
    decreases |ws|
  {
    if c == FinalOne(ws[0], n) {
      w := ws[0];
    } else {
      w := FinalMember(ws[1..], n + 1, c);
    }
  }

  lemma {:induction false} FinalWholeText(ws: seq<Working>, n: nat)
    ensures WholeText(Fresh(FinalAll(ws, n))) == WholeText(ws)
    decreases |ws|
  {
    if ws != [] {
      FinalWholeText(ws[1..], n + 1);
      assert Fresh(FinalAll(ws, n))[1..] == Fresh(FinalAll(ws[1..], n + 1));
    }
  }

  // ---------- idempotence ----------

  /** Every chunk is already within both limits. */
  ghost predicate Bounded(p: Policy, ws: seq<Working>) {
    forall k :: 0 <= k < |ws| ==> TextWithin(p, ws[k]) && BytesWithin(p, ws[k])
  }

  lemma BoundedPassThrough(p: Policy, ws: seq<Working>)
    requires Bounded(p, ws)
    ensures Expand(Capper(p), Expand(Resplitter(p), ws)) == ws
  {
    assert forall w :: w in ws ==> TextWithin(p, w) && BytesWithin(p, w);
    ExpandSame(Resplitter(p), ws);
    ExpandSame(Capper(p), ws);
  }

  /** A chunk numbered and then numbered again at the same place is unchanged. */
  lemma FinalOneAgain(w: Working, n: nat)
    ensures FinalOne(Working(FinalOne(w, n), false), n) == FinalOne(w, n)
  {
    var c := FinalOne(w, n);
    assert FinalOne(Working(c, false), n).metadata == c.metadata;
  }

  lemma {:induction false} FinalAllAgain(ws: seq<Working>, n: nat)
    ensures FinalAll(Fresh(FinalAll(ws, n)), n) == FinalAll(ws, n)
    decreases |ws|
  {
    if ws != [] {
      FinalOneAgain(ws[0], n);
      FinalAllAgain(ws[1..], n + 1);
      assert Fresh(FinalAll(ws, n))[1..] == Fresh(FinalAll(ws[1..], n + 1));
    }
  }

  /** Either nothing is merged, or the separators make the text longer. */
  lemma {:induction false} MergeLengthens(p: Policy, last: Working, rest: seq<Working>)
    ensures var out := MergeFrom(p, last, rest);
      out == [last] + rest || |WholeText(out)| > |WholeText([last] + rest)|
    decreases |rest|
  {
    if rest == [] {
      assert [last] + rest == [last];
    } else {
      assert rest == [rest[0]] + rest[1..];
      assert ([last] + rest)[1..] == rest;
      if CanMerge(p, last.chunk, rest[0].chunk) {
        var joined := Working(MergeTwo(last.chunk, rest[0].chunk), true);
        MergeLengthens(p, joined, rest[1..]);
        assert ([joined] + rest[1..])[1..] == rest[1..];
      } else {
        MergeLengthens(p, rest[0], rest[1..]);
        var tail := MergeFrom(p, rest[0], rest[1..]);
        assert ([last] + tail)[1..] == tail;
      }
    }
  }

  lemma {:induction false} MergeAllLengthens(p: Policy, chunks: seq<ChunkRecord>)
    requires !NoMergeable(p, chunks)
    ensures |WholeText(MergeAll(p, Fresh(chunks)))| > |WholeText(Fresh(chunks))|
  {
    MergePassNothing(p, chunks);
    MergeLengthens(p, Fresh(chunks)[0], Fresh(chunks)[1..]);
    assert [Fresh(chunks)[0]] + Fresh(chunks)[1..] == Fresh(chunks);
  }

  lemma ApplyAgain(p: Policy, chunks: seq<ChunkRecord>)
    requires p.maxSize >= 1 && p.capBytes >= 4
    ensures Applied(p, Applied(p, chunks)) == Applied(p, chunks) <==> NoMergeable(p, Applied(p, chunks))
  {
    var once := Applied(p, chunks);
    if NoMergeable(p, once) {
      ApplyStops(p, chunks);
    } else {
      MergeAllLengthens(p, once);
      ApplyConserves(p, once);
    }
  }

  lemma ApplyStops(p: Policy, chunks: seq<ChunkRecord>)
    requires p.maxSize >= 1 && p.capBytes >= 4
    requires NoMergeable(p, Applied(p, chunks))
    ensures Applied(p, Applied(p, chunks)) == Applied(p, chunks)
  {
    var once := Applied(p, chunks);
    OnceIsBounded(p, chunks);
    MergePassNothing(p, once);
    BoundedPassThrough(p, Fresh(once));
    FinalAllAgain(Cut3(p, chunks), 0);
  }

  lemma OnceIsBounded(p: Policy, chunks: seq<ChunkRecord>)
    requires p.maxSize >= 1 && p.capBytes >= 4
    ensures Bounded(p, Fresh(Applied(p, chunks)))
  {
    ApplyBounds(p, chunks);
    assert forall k :: 0 <= k < |Applied(p, chunks)| ==> Applied(p, chunks)[k] in Applied(p, chunks);
  }

  // ---------- which joints can merge ----------

  /** What one merged chunk is cut into. */
  function Pieces(p: Policy, w: Working): seq<Working> {
    Expand(Capper(p), ResplitOne(p, w))
  }

  function Piecer(p: Policy): Working -> seq<Working> {
    w => Pieces(p, w)
  }

  lemma {:induction false} ExpandAppend(f: Working -> seq<Working>, a: seq<Working>, b: seq<Working>)
    ensures Expand(f, a + b) == Expand(f, a) + Expand(f, b)
  {
    if a == [] {
      assert a + b == b;
    } else {
      assert (a + b)[1..] == a[1..] + b;
      ExpandAppend(f, a[1..], b);
    }
  }

  /** Resplitting all and then capping all is cutting one chunk after the other. */
  lemma {:induction false} ExpandTwice(p: Policy, ws: seq<Working>)
    ensures Expand(Capper(p), Expand(Resplitter(p), ws)) == Expand(Piecer(p), ws)
  {
    if ws != [] {
      ExpandTwice(p, ws[1..]);
      ExpandAppend(Capper(p), ResplitOne(p, ws[0]), Expand(Resplitter(p), ws[1..]));
    }
  }

  lemma {:induction false} ExpandNonEmpty(f: Working -> seq<Working>, ws: seq<Working>)
    requires ws != [] && forall w :: f(w) != []
    ensures Expand(f, ws) != [] && Expand(f, ws)[0] == f(ws[0])[0]
  {
  }

  lemma PiecesNonEmpty(p: Policy, w: Working)
    requires p.maxSize >= 1 && p.capBytes >= 4
    ensures Pieces(p, w) != []
  {
    ResplitOneExact(p, w);
    forall v ensures Capper(p)(v) != [] {
      CapOneExact(p, v);
      assert Refines(CapOne(p, v), v);
    }
    assert Refines(ResplitOne(p, w), w);
    ExpandNonEmpty(Capper(p), ResplitOne(p, w));
  }

  predicate CanJoin(p: Policy, a: Working, b: Working) {
    CanMerge(p, a.chunk, b.chunk)
  }

  /** No two neighbours can be merged. */
  ghost predicate Still(p: Policy, ws: seq<Working>) {
    forall k :: 0 <= k < |ws| - 1 ==> !CanJoin(p, ws[k], ws[k + 1])
  }

  lemma StillIsNoMergeable(p: Policy, ws: seq<Working>)
    ensures Still(p, ws) <==> NoMergeable(p, Chunks(ws))
  {
    forall k | 0 <= k < |ws| - 1
      ensures CanJoin(p, ws[k], ws[k + 1]) <==> CanMerge(p, Chunks(ws)[k], Chunks(ws)[k + 1])
    {
    }
  }

  lemma StillAppend(p: Policy, a: seq<Working>, b: seq<Working>)
    requires a != [] && b != []
    ensures Still(p, a + b) <==> Still(p, a) && Still(p, b) && !CanJoin(p, a[|a| - 1], b[0])
  {
    var all := a + b;
    if Still(p, all) {
      forall k | 0 <= k < |a| - 1 ensures !CanJoin(p, a[k], a[k + 1]) {
        assert !CanJoin(p, all[k], all[k + 1]);
      }
      forall k | 0 <= k < |b| - 1 ensures !CanJoin(p, b[k], b[k + 1]) {
        assert !CanJoin(p, all[|a| + k], all[|a| + k + 1]);
      }
      assert !CanJoin(p, all[|a| - 1], all[|a|]);
    }
  }

  /** The last piece of one list could merge with the first of the other. */
  predicate EdgeJoins(p: Policy, a: seq<Working>, b: seq<Working>) {
    a != [] && b != [] && CanJoin(p, a[|a| - 1], b[0])
  }

  ghost predicate EdgesStill(p: Policy, f: Working -> seq<Working>, ws: seq<Working>) {
    forall k :: 0 <= k < |ws| - 1 ==> !EdgeJoins(p, f(ws[k]), f(ws[k + 1]))
  }

  ghost predicate EachStill(p: Policy, f: Working -> seq<Working>, ws: seq<Working>) {
    forall k :: 0 <= k < |ws| ==> Still(p, f(ws[k]))
  }

  lemma {:induction false} ExpandStill(p: Policy, f: Working -> seq<Working>, ws: seq<Working>)
    requires forall w :: f(w) != []
    ensures Still(p, Expand(f, ws)) <==> EachStill(p, f, ws) && EdgesStill(p, f, ws)
  {
    if |ws| == 1 {
      assert Expand(f, ws) == f(ws[0]) + Expand(f, ws[1..]) == f(ws[0]);
    } else if ws != [] {
      var tail := ws[1..];
      ExpandStill(p, f, tail);
      ExpandNonEmpty(f, tail);
      StillAppend(p, f(ws[0]), Expand(f, tail));
      assert forall k :: 0 <= k < |tail| ==> tail[k] == ws[k + 1];
      TailStill(p, f, ws);
    }
  }

  lemma TailStill(p: Policy, f: Working -> seq<Working>, ws: seq<Working>)
    requires |ws| > 1
    ensures EachStill(p, f, ws) <==> Still(p, f(ws[0])) && EachStill(p, f, ws[1..])
    ensures EdgesStill(p, f, ws) <==> !EdgeJoins(p, f(ws[0]), f(ws[1])) && EdgesStill(p, f, ws[1..])
  {
    var tail := ws[1..];
    if EachStill(p, f, ws) {
      forall k | 0 <= k < |tail| ensures Still(p, f(tail[k])) { assert Still(p, f(ws[k + 1])); }
    }
    if EdgesStill(p, f, ws) {
      forall k | 0 <= k < |tail| - 1 ensures !EdgeJoins(p, f(tail[k]), f(tail[k + 1])) {
        assert !EdgeJoins(p, f(ws[k + 1]), f(ws[k + 2]));
      }
    }
    if Still(p, f(ws[0])) && EachStill(p, f, tail) {
      forall k | 0 <= k < |ws| ensures Still(p, f(ws[k])) { assert k > 0 ==> Still(p, f(tail[k - 1])); }
    }
    if !EdgeJoins(p, f(ws[0]), f(ws[1])) && EdgesStill(p, f, tail) {
      forall k | 0 <= k < |ws| - 1 ensures !EdgeJoins(p, f(ws[k]), f(ws[k + 1])) {
        assert k > 0 ==> !EdgeJoins(p, f(tail[k - 1]), f(tail[k]));
      }
    }
  }

  /** The merged chunk is cut. */
  predicate IsCut(p: Policy, w: Working) {
    Pieces(p, w) != [w]
  }

  /** On the merged chunks: no two neighbouring pieces of a cut chunk can merge, and
      where a cut chunk meets a neighbour the two pieces that meet cannot. */
  ghost predicate Settled(p: Policy, ws: seq<Working>) {
    && (forall k :: 0 <= k < |ws| && IsCut(p, ws[k]) ==> Still(p, Pieces(p, ws[k])))
    && (forall k :: 0 <= k < |ws| - 1 && (IsCut(p, ws[k]) || IsCut(p, ws[k + 1])) ==>
          !EdgeJoins(p, Pieces(p, ws[k]), Pieces(p, ws[k + 1])))
  }

  /** `apply` run on its own result changes nothing, whole records included, exactly
      when the merged chunks are settled. */
  lemma ApplyTwice(p: Policy, chunks: seq<ChunkRecord>)
    requires p.maxSize >= 1 && p.capBytes >= 4
    ensures Applied(p, Applied(p, chunks)) == Applied(p, chunks) <==> Settled(p, MergeAll(p, Fresh(chunks)))
  {
    var merged := MergeAll(p, Fresh(chunks));
    ApplyAgain(p, chunks);
    AppliedStill(p, chunks);
    forall w ensures Piecer(p)(w) != [] { PiecesNonEmpty(p, w); }
    ExpandTwice(p, merged);
    ExpandStill(p, Piecer(p), merged);
    MergedStill(p, chunks);
    SettledExactly(p, merged);
  }

  lemma SettledExactly(p: Policy, ws: seq<Working>)
    requires Still(p, ws)
    ensures Settled(p, ws) <==> EachStill(p, Piecer(p), ws) && EdgesStill(p, Piecer(p), ws)
  {
    forall k | 0 <= k < |ws| && !IsCut(p, ws[k]) ensures Still(p, Pieces(p, ws[k])) {
    }
    forall k | 0 <= k < |ws| - 1 && !IsCut(p, ws[k]) && !IsCut(p, ws[k + 1])
      ensures !EdgeJoins(p, Pieces(p, ws[k]), Pieces(p, ws[k + 1]))
    {
      assert !CanJoin(p, ws[k], ws[k + 1]);
    }
    if Settled(p, ws) {
      assert forall k :: 0 <= k < |ws| ==> Still(p, Piecer(p)(ws[k]));
    }
    if EachStill(p, Piecer(p), ws) {
      assert forall k :: 0 <= k < |ws| ==> Still(p, Piecer(p)(ws[k]));
    }
    if EdgesStill(p, Piecer(p), ws) {
      assert forall k :: 0 <= k < |ws| - 1 ==> !EdgeJoins(p, Piecer(p)(ws[k]), Piecer(p)(ws[k + 1]));
    }
  }

  lemma MergedStill(p: Policy, chunks: seq<ChunkRecord>)
    ensures Still(p, MergeAll(p, Fresh(chunks)))
  {
    if chunks != [] {
      MergeFromStable(p, Fresh(chunks)[0], Fresh(chunks)[1..]);
      StillIsNoMergeable(p, MergeAll(p, Fresh(chunks)));
    }
  }

  /** Renumbering does not change what can merge. */
  lemma AppliedStill(p: Policy, chunks: seq<ChunkRecord>)
    ensures NoMergeable(p, Applied(p, chunks)) <==> Still(p, Cut3(p, chunks))
  {
    var ws, once := Cut3(p, chunks), Applied(p, chunks);
    FinalAt(ws, 0);
    forall k | 0 <= k < |ws| - 1 ensures CanMerge(p, once[k], once[k + 1]) <==> CanJoin(p, ws[k], ws[k + 1]) {
    }
  }

  /** When every input text fits `maxSize` and no merged text exceeds the cap,
      `apply` is idempotent on whole records: only atomic chunks are cut. */
  lemma ApplyIdempotent(p: Policy, chunks: seq<ChunkRecord>)
    requires p.maxSize >= 1 && p.capBytes >= 4
    requires forall c :: c in chunks && IsText(c) ==> |c.content| <= p.maxSize
    requires forall w :: w in MergeAll(p, Fresh(chunks)) && IsText(w.chunk) ==> BytesWithin(p, w)
    ensures Applied(p, Applied(p, chunks)) == Applied(p, chunks)
  {
    var merged := MergeAll(p, Fresh(chunks));
    if chunks != [] {
      MergeFromWithin(p, Fresh(chunks)[0], Fresh(chunks)[1..]);
    }
    forall w | w in merged ensures IsCut(p, w) ==> AllAtomic(Pieces(p, w)) {
      WithinIsCutAtomic(p, w);
    }
    forall k | 0 <= k < |merged| - 1 && (IsCut(p, merged[k]) || IsCut(p, merged[k + 1]))
      ensures !EdgeJoins(p, Pieces(p, merged[k]), Pieces(p, merged[k + 1]))
    {
      assert merged[k] in merged && merged[k + 1] in merged;
    }
    ApplyTwice(p, chunks);
  }

  ghost predicate AllAtomic(ws: seq<Working>) {
    forall k :: 0 <= k < |ws| ==> !IsText(ws[k].chunk)
  }

  lemma WithinIsCutAtomic(p: Policy, w: Working)
    requires p.maxSize >= 1 && p.capBytes >= 4
    requires IsText(w.chunk) ==> TextWithin(p, w) && BytesWithin(p, w)
    ensures IsCut(p, w) ==> AllAtomic(Pieces(p, w))
  {
    assert ResplitOne(p, w) == [w];
    assert Pieces(p, w) == CapOne(p, w) + Expand(Capper(p), [w][1..]) == CapOne(p, w);
    CapOneExact(p, w);
    assert Refines(CapOne(p, w), w);
  }

  lemma {:induction false} MergeFromWithin(p: Policy, last: Working, rest: seq<Working>)
    requires TextWithin(p, last) && forall w :: w in rest ==> TextWithin(p, w)
    ensures forall v :: v in MergeFrom(p, last, rest) ==> TextWithin(p, v)
    decreases |rest|
  {
    if rest != [] {
      if CanMerge(p, last.chunk, rest[0].chunk) {
        MergeFromWithin(p, Working(MergeTwo(last.chunk, rest[0].chunk), true), rest[1..]);
      } else {
        MergeFromWithin(p, rest[0], rest[1..]);
      }
    }
  }

  /** The defaults: characters of at most three bytes and a cap of at least three
      bytes a character make `apply` idempotent. */
  lemma ApplyIdempotentForNarrowText(p: Policy, chunks: seq<ChunkRecord>)
    requires p.maxSize >= 1 && p.capBytes >= 4 && 3 * p.maxSize <= p.capBytes
    requires forall c :: c in chunks && IsText(c) ==> |c.content| <= p.maxSize && Narrow(c.content)
    ensures Applied(p, Applied(p, chunks)) == Applied(p, chunks)
  {
    if chunks != [] {
      var ws := Fresh(chunks);
      MergeFromWithin(p, ws[0], ws[1..]);
      MergeFromNarrow(p, ws[0], ws[1..]);
      forall w | w in MergeAll(p, ws) && IsText(w.chunk) ensures BytesWithin(p, w) {
        NarrowBytes(w.chunk.content);
      }
    }
    ApplyIdempotent(p, chunks);
  }

  ghost predicate Narrow(s: string) {
    forall k :: 0 <= k < |s| ==> Width(s[k]) <= 3
  }

  lemma {:induction false} NarrowBytes(s: string)
    requires Narrow(s)
    ensures Bytes(s) <= 3 * |s|
  {
    if s != "" {
      NarrowBytes(s[..|s| - 1]);
    }
  }

  lemma {:induction false} MergeFromNarrow(p: Policy, last: Working, rest: seq<Working>)
    requires IsText(last.chunk) ==> Narrow(last.chunk.content)
    requires forall w :: w in rest && IsText(w.chunk) ==> Narrow(w.chunk.content)
    ensures forall v :: v in MergeFrom(p, last, rest) && IsText(v.chunk) ==> Narrow(v.chunk.content)
    decreases |rest|
  {
    if rest != [] {
      if CanMerge(p, last.chunk, rest[0].chunk) {
        MergeFromNarrow(p, Working(MergeTwo(last.chunk, rest[0].chunk), true), rest[1..]);
      } else {
        MergeFromNarrow(p, rest[0], rest[1..]);
      }
    }
  }

  // ---------- the one joint inside a text ----------

  /** A text that is resplit. */
  predicate IsLong(p: Policy, w: Working) {
    IsText(w.chunk) && |w.chunk.content| > p.maxSize
  }

  /** Wherever a sentence was cut, its remainder is too long for the piece that
      follows. */
  ghost predicate RemaindersStill(p: Policy, text: string) {
    var pieces := SplitPieces(text, p.maxSize);
    forall k: nat :: k + 1 < |pieces| && AfterOversize(p.maxSize, Sentences(text), |Concat(pieces[..k + 1])|) ==>
      |pieces[k]| + |MERGE_SEPARATOR| + |pieces[k + 1]| > p.maxSize
  }

  /** No resplit text exceeds the byte cap. */
  ghost predicate TextsWithinCap(p: Policy, ws: seq<Working>) {
    forall v :: v in Expand(Resplitter(p), ws) && IsText(v.chunk) ==> BytesWithin(p, v)
  }

  lemma {:induction false} ExpandHas(f: Working -> seq<Working>, ws: seq<Working>, w: Working, v: Working)
    requires w in ws && v in f(w)
    ensures v in Expand(f, ws)
  {
    if w != ws[0] {
      ExpandHas(f, ws[1..], w, v);
    }
  }

  /** The pieces at a joint of a long text can merge exactly when they fit together,
      which they do only after the remainder of a cut sentence. */
  lemma LongJoint(p: Policy, c: ChunkRecord, k: nat)
    requires p.maxSize >= 1 && IsText(c) && k + 1 < |SplitPieces(c.content, p.maxSize)|
    ensures var pieces := SplitPieces(c.content, p.maxSize);
      var ws := PieceChunks(c, c.qualityFlags, pieces, c.startIndex);
      && |ws| == |pieces|
      && (CanJoin(p, ws[k], ws[k + 1]) <==> |pieces[k]| + |MERGE_SEPARATOR| + |pieces[k + 1]| <= p.maxSize)
      && (CanJoin(p, ws[k], ws[k + 1]) ==> AfterOversize(p.maxSize, Sentences(c.content), |Concat(pieces[..k + 1])|))
  {
    var pieces := SplitPieces(c.content, p.maxSize);
    var ws := PieceChunks(c, c.qualityFlags, pieces, c.startIndex);
    PieceChunksExact(c, c.qualityFlags, pieces, c.startIndex);
    assert Replaces(ws, c, c.startIndex);
    assert IsText(ws[k].chunk) && IsText(ws[k + 1].chunk)
      && ws[k].chunk.headingPath == ws[k + 1].chunk.headingPath;
    assert CanJoin(p, ws[k], ws[k + 1]) ==> |pieces[k]| + |pieces[k + 1]| <= p.maxSize;
    PackShortJoint(p.maxSize, "", Sentences(c.content), k);
  }

  lemma LongStill(p: Policy, c: ChunkRecord)
    requires p.maxSize >= 1 && IsText(c)
    ensures Still(p, PieceChunks(c, c.qualityFlags, SplitPieces(c.content, p.maxSize), c.startIndex)) <==>
      RemaindersStill(p, c.content)
  {
    var pieces := SplitPieces(c.content, p.maxSize);
    PieceChunksExact(c, c.qualityFlags, pieces, c.startIndex);
    forall k: nat | k + 1 < |pieces|
      ensures var ws := PieceChunks(c, c.qualityFlags, pieces, c.startIndex);
        && (CanJoin(p, ws[k], ws[k + 1]) <==> |pieces[k]| + |MERGE_SEPARATOR| + |pieces[k + 1]| <= p.maxSize)
        && (CanJoin(p, ws[k], ws[k + 1]) ==> AfterOversize(p.maxSize, Sentences(c.content), |Concat(pieces[..k + 1])|))
    {
      LongJoint(p, c, k);
    }
  }

  /** A long text within the cap is cut into its sentence pieces. */
  lemma LongPieces(p: Policy, w: Working)
    requires p.maxSize >= 1 && p.capBytes >= 4 && IsLong(p, w)
    requires forall v :: v in ResplitOne(p, w) ==> BytesWithin(p, v)
    ensures Pieces(p, w) == ResplitOne(p, w) && IsCut(p, w)
    ensures Still(p, Pieces(p, w)) <==> RemaindersStill(p, w.chunk.content)
  {
    ExpandSame(Capper(p), ResplitOne(p, w));
    ResplitOneExact(p, w);
    LongStill(p, w.chunk);
    assert [w][0] in [w] && !TextWithin(p, w);
  }

  /** On the merged chunks: every remainder of a cut sentence is too long for its
      follower, and no long text meets a neighbour with pieces that could merge. */
  ghost predicate LongSettled(p: Policy, ws: seq<Working>) {
    && (forall k :: 0 <= k < |ws| && IsLong(p, ws[k]) ==> RemaindersStill(p, ws[k].chunk.content))
    && (forall k :: 0 <= k < |ws| - 1 && (IsLong(p, ws[k]) || IsLong(p, ws[k + 1])) ==>
          !EdgeJoins(p, Pieces(p, ws[k]), Pieces(p, ws[k + 1])))
  }

  /** When no resplit text exceeds the byte cap, `apply` is idempotent exactly when
      the long texts are settled. */
  lemma ApplyTwiceWithinCap(p: Policy, chunks: seq<ChunkRecord>)
    requires p.maxSize >= 1 && p.capBytes >= 4 && TextsWithinCap(p, MergeAll(p, Fresh(chunks)))
    ensures Applied(p, Applied(p, chunks)) == Applied(p, chunks) <==> LongSettled(p, MergeAll(p, Fresh(chunks)))
  {
    ApplyTwice(p, chunks);
    SettledWithinCap(p, MergeAll(p, Fresh(chunks)));
  }

  lemma SettledWithinCap(p: Policy, ws: seq<Working>)
    requires p.maxSize >= 1 && p.capBytes >= 4 && TextsWithinCap(p, ws)
    ensures Settled(p, ws) <==> LongSettled(p, ws)
  {
    forall k | 0 <= k < |ws|
      ensures IsLong(p, ws[k]) ==>
        IsCut(p, ws[k]) && (Still(p, Pieces(p, ws[k])) <==> RemaindersStill(p, ws[k].chunk.content))
      ensures !IsLong(p, ws[k]) && IsCut(p, ws[k]) ==> AllAtomic(Pieces(p, ws[k]))
    {
      CutWithinCap(p, ws, ws[k]);
    }
    forall k | 0 <= k < |ws| - 1 && !IsLong(p, ws[k]) && !IsLong(p, ws[k + 1]) && (IsCut(p, ws[k]) || IsCut(p, ws[k + 1]))
      ensures !EdgeJoins(p, Pieces(p, ws[k]), Pieces(p, ws[k + 1]))
    {
      assert AllAtomic(Pieces(p, ws[k])) || AllAtomic(Pieces(p, ws[k + 1]));
    }
  }

  lemma CutWithinCap(p: Policy, ws: seq<Working>, w: Working)
    requires p.maxSize >= 1 && p.capBytes >= 4 && TextsWithinCap(p, ws) && w in ws
    ensures IsLong(p, w) ==> IsCut(p, w) && (Still(p, Pieces(p, w)) <==> RemaindersStill(p, w.chunk.content))
    ensures !IsLong(p, w) && IsCut(p, w) ==> AllAtomic(Pieces(p, w))
  {
    forall v | v in ResplitOne(p, w) && IsText(v.chunk) ensures BytesWithin(p, v) {
      ExpandHas(Resplitter(p), ws, w, v);
    }
    CutsOf(p, w);
  }

  lemma CutsOf(p: Policy, w: Working)
    requires p.maxSize >= 1 && p.capBytes >= 4
    requires forall v :: v in ResplitOne(p, w) && IsText(v.chunk) ==> BytesWithin(p, v)
    ensures IsLong(p, w) ==> IsCut(p, w) && (Still(p, Pieces(p, w)) <==> RemaindersStill(p, w.chunk.content))
    ensures !IsLong(p, w) && IsCut(p, w) ==> AllAtomic(Pieces(p, w))
  {
    if IsLong(p, w) {
      LongAreText(p, w);
      LongPieces(p, w);
    } else {
      assert ResplitOne(p, w) == [w] && w in [w];
      WithinIsCutAtomic(p, w);
    }
  }

  lemma LongAreText(p: Policy, w: Working)
    requires p.maxSize >= 1 && IsLong(p, w)
    ensures forall v :: v in ResplitOne(p, w) ==> IsText(v.chunk)
  {
    PieceChunksExact(w.chunk, w.chunk.qualityFlags, SplitPieces(w.chunk.content, p.maxSize), w.chunk.startIndex);
  }

  /** Without the first condition idempotence fails: one text too long for the
      limit leaves a short tail that merges with its neighbour next time. */
  lemma LongTextIsNotIdempotent(c: ChunkRecord)
    requires c.contentType == "text"
    ensures var p, chunks := Policy(4, 100), [c.(content := "abcde"), c.(content := "f")];
      Applied(p, Applied(p, chunks)) != Applied(p, chunks)
  {
    var p := Policy(4, 100);
    var a, b := c.(content := "abcde"), c.(content := "f");
    var merged := [Working(a, false), Working(b, false)];
    assert merged == Fresh([a, b]) && [a, b][0] == a && [a, b][1] == b;
    MergePassNothing(p, [a, b]);
    var pieces := LongTextPieces(p, a);
    SmallBytes(b.content);
    assert Pieces(p, merged[1]) == [merged[1]] by {
      assert Expand(Capper(p), [merged[1]]) == CapOne(p, merged[1]) + Expand(Capper(p), [merged[1]][1..]);
    }
    assert EdgeJoins(p, Pieces(p, merged[0]), Pieces(p, merged[1]));
    ApplyTwice(p, [a, b]);
  }

  /** Its pieces are "abcd" and the tail "e". */
  lemma LongTextPieces(p: Policy, a: ChunkRecord) returns (pieces: seq<Working>)
    requires p == Policy(4, 100) && a.contentType == "text" && a.content == "abcde"
    ensures pieces == Pieces(p, Working(a, false)) && |pieces| == 2
    ensures pieces[1].chunk == a.(content := "e", startIndex := pieces[1].chunk.startIndex,
                                  endIndex := pieces[1].chunk.endIndex)
    ensures IsCut(p, Working(a, false))
  {
    FiveLetters();
    pieces := PieceChunks(a, a.qualityFlags, ["abcd", "e"], a.startIndex);
    PieceChunksExact(a, a.qualityFlags, ["abcd", "e"], a.startIndex);
    forall w | w in pieces ensures Capper(p)(w) == [w] {
      SmallBytes(w.chunk.content);
    }
    ExpandSame(Capper(p), pieces);
  }

  lemma ExpandTwo(f: Working -> seq<Working>, ws: seq<Working>)
    requires |ws| == 2
    ensures Expand(f, ws) == f(ws[0]) + f(ws[1])
  {
    assert ws[1..] == [ws[1]];
    assert Expand(f, [ws[1]]) == f(ws[1]) + Expand(f, []);
  }

  lemma FiveLetters()
    ensures SplitPieces("abcde", 4) == ["abcd", "e"]
  {
    var s := "abcde";
    NoTerminator(s, 0);
    HardCutIsCut(s, 4);
    assert s[..4] == "abcd" && s[4..] == "e";
    assert HardCut(s, 4) == ["abcd"] + ["e"];
    assert Pack(Chars, 4, "", [s]) == [] + Cut(Chars, 4, s) + [];
  }

  lemma {:induction false} NoTerminator(s: string, i: nat)
    requires i <= |s| && s != "" && forall k :: 0 <= k < |s| ==> !EndsSentence(s[k])
    ensures SentencesFrom(s, 0, i) == [s]
    decreases |s| - i
  {
    if i < |s| {
      NoTerminator(s, i + 1);
    } else {
      assert s[0..] == s;
    }
  }

  lemma {:induction false} SmallBytes(s: string)
    ensures Bytes(s) <= 4 * |s|
  {
    if s != "" {
      SmallBytes(s[..|s| - 1]);
    }
  }

  // ---------- identifiers ----------

  /** Identifiers of the chunks whose boundaries did not change. */
  function KeptIds(ws: seq<Working>): seq<string> {
    if ws == [] then []
    else (if ws[0].boundaryChanged then [] else [ws[0].chunk.chunkId]) + KeptIds(ws[1..])
  }

  lemma {:induction false} KeptIdsAppend(a: seq<Working>, b: seq<Working>)
    ensures KeptIds(a + b) == KeptIds(a) + KeptIds(b)
  {
    if a == [] {
      assert a + b == b;
    } else {
      assert (a + b)[1..] == a[1..] + b;
      KeptIdsAppend(a[1..], b);
    }
  }

  lemma {:induction false} AllChangedKeepNone(ws: seq<Working>)
    requires forall k :: 0 <= k < |ws| ==> ws[k].boundaryChanged
    ensures KeptIds(ws) == []
  {
    if ws != [] {
      AllChangedKeepNone(ws[1..]);
    }
  }

  lemma {:induction false} MergeFromIds(p: Policy, last: Working, rest: seq<Working>)
    ensures multiset(KeptIds(MergeFrom(p, last, rest))) <= multiset(KeptIds([last])) + multiset(KeptIds(rest))
    decreases |rest|
  {
    if rest != [] {
      KeptIdsAppend([rest[0]], rest[1..]);
      assert [rest[0]] + rest[1..] == rest;
      if CanMerge(p, last.chunk, rest[0].chunk) {
        var joined := Working(MergeTwo(last.chunk, rest[0].chunk), true);
        MergeFromIds(p, joined, rest[1..]);
        assert KeptIds([joined]) == [];
      } else {
        MergeFromIds(p, rest[0], rest[1..]);
        KeptIdsAppend([last], MergeFrom(p, rest[0], rest[1..]));
      }
    }
  }

  lemma {:induction false} MergeFromDoc(p: Policy, docId: string, last: Working, rest: seq<Working>)
    requires last.chunk.docId == docId && forall w :: w in rest ==> w.chunk.docId == docId
    ensures forall v :: v in MergeFrom(p, last, rest) ==> v.chunk.docId == docId
    decreases |rest|
  {
    if rest != [] {
      if CanMerge(p, last.chunk, rest[0].chunk) {
        MergeFromDoc(p, docId, Working(MergeTwo(last.chunk, rest[0].chunk), true), rest[1..]);
      } else {
        MergeFromDoc(p, docId, rest[0], rest[1..]);
      }
    }
  }

  lemma {:induction false} ExpandIds(f: Working -> seq<Working>, ws: seq<Working>)
    requires forall w :: Refines(f(w), w)
    ensures multiset(KeptIds(Expand(f, ws))) <= multiset(KeptIds(ws))
  {
    if ws != [] {
      var head := f(ws[0]);
      assert Refines(head, ws[0]);
      if head != [ws[0]] {
        AllChangedKeepNone(head);
      }
      ExpandIds(f, ws[1..]);
      KeptIdsAppend(head, Expand(f, ws[1..]));
      KeptIdsAppend([ws[0]], ws[1..]);
      assert [ws[0]] + ws[1..] == ws;
    }
  }

  lemma CutIds(p: Policy, docId: string, ws: seq<Working>)
    requires p.maxSize >= 1 && p.capBytes >= 4
    requires forall w :: w in ws ==> w.chunk.docId == docId
    ensures var out := Expand(Capper(p), Expand(Resplitter(p), ws));
      && multiset(KeptIds(out)) <= multiset(KeptIds(ws))
      && forall v :: v in out ==> v.chunk.docId == docId
  {
    var f, g := Resplitter(p), Capper(p);
    forall w ensures Refines(f(w), w) { ResplitOneExact(p, w); }
    forall w ensures Refines(g(w), w) { CapOneExact(p, w); }
    ExpandIds(f, ws);
    ExpandIds(g, Expand(f, ws));
    forall v | v in Expand(g, Expand(f, ws)) ensures v.chunk.docId == docId {
      var u := ExpandMember(g, Expand(f, ws), v);
      var w := ExpandMember(f, ws, u);
      assert Refines(f(w), w) && Refines(g(u), u);
    }
  }

  lemma {:induction false} FreshIds(chunks: seq<ChunkRecord>)
    ensures KeptIds(Fresh(chunks)) == Ids(chunks)
  {
    if chunks != [] {
      FreshIds(chunks[1..]);
      assert Fresh(chunks)[1..] == Fresh(chunks[1..]);
    }
  }

  /** The identifier is not one that renumbering could produce. */
  ghost predicate NotCpId(docId: string, id: string) {
    forall n: nat :: id != CpId(docId, n)
  }

  lemma {:induction false} KeptIdsHas(ws: seq<Working>, i: nat)
    requires i < |ws| && !ws[i].boundaryChanged
    ensures ws[i].chunk.chunkId in KeptIds(ws)
  {
    if i > 0 {
      KeptIdsHas(ws[1..], i - 1);
    }
  }

  lemma {:induction false} KeptDiffer(ws: seq<Working>, i: nat, j: nat)
    requires Distinct(KeptIds(ws)) && i < j < |ws| && !ws[i].boundaryChanged && !ws[j].boundaryChanged
    ensures ws[i].chunk.chunkId != ws[j].chunk.chunkId
  {
    var kept := KeptIds(ws[1..]);
    assert KeptIds(ws)[|KeptIds(ws)| - |kept|..] == kept;
    DistinctTail(KeptIds(ws), kept);
    if i == 0 {
      KeptIdsHas(ws[1..], j - 1);
      assert KeptIds(ws)[0] == ws[0].chunk.chunkId;
    } else {
      KeptDiffer(ws[1..], i - 1, j - 1);
    }
  }

  lemma DistinctTail(s: seq<string>, tail: seq<string>)
    requires Distinct(s) && |tail| <= |s| && s[|s| - |tail|..] == tail
    ensures Distinct(tail)
    ensures |tail| < |s| ==> s[0] !in tail
  {
    var k := |s| - |tail|;
    forall i | 0 <= i < |tail| ensures tail[i] == s[k + i] {
      assert s[k..][i] == s[k + i];
    }
  }

  /** The unchanged chunk at `i` carries the identifier the changed one at `j` gets. */
  predicate Reuses(docId: string, ws: seq<Working>, i: nat, j: nat)
    requires i < |ws| && j < |ws|
  {
    !ws[i].boundaryChanged && ws[j].boundaryChanged && ws[i].chunk.chunkId == CpId(docId, j)
  }

  ghost predicate NoReuse(docId: string, ws: seq<Working>) {
    forall i: nat, j: nat :: i < |ws| && j < |ws| ==> !Reuses(docId, ws, i, j)
  }

  ghost predicate OneDocument(docId: string, ws: seq<Working>) {
    forall k :: 0 <= k < |ws| ==> ws[k].chunk.docId == docId
  }

  /** No two unchanged chunks share an identifier. */
  ghost predicate KeptApart(ws: seq<Working>) {
    forall i: nat, j: nat :: i < j < |ws| && !ws[i].boundaryChanged && !ws[j].boundaryChanged ==>
      ws[i].chunk.chunkId != ws[j].chunk.chunkId
  }

  function FinalIds(ws: seq<Working>): seq<string> {
    seq(|ws|, k requires 0 <= k < |ws| => FinalId(ws[k], k))
  }

  lemma FinalIdsAre(ws: seq<Working>)
    ensures Ids(FinalAll(ws, 0)) == FinalIds(ws)
  {
    FinalAt(ws, 0);
    forall k | 0 <= k < |ws| ensures Ids(FinalAll(ws, 0))[k] == FinalId(ws[k], k) {
      assert FinalAll(ws, 0)[k] == FinalOne(ws[k], 0 + k);
    }
  }

  /** Two final identifiers coincide exactly when one of the two is reused. */
  lemma FinalIdsCoincide(docId: string, ws: seq<Working>, i: nat, j: nat)
    requires OneDocument(docId, ws) && KeptApart(ws) && i < j < |ws|
    ensures FinalId(ws[i], i) == FinalId(ws[j], j) <==> Reuses(docId, ws, i, j) || Reuses(docId, ws, j, i)
  {
    if ws[i].boundaryChanged && ws[j].boundaryChanged && CpId(docId, i) == CpId(docId, j) {
      NumberedInjective(docId + ":cp", i, j);
    }
  }

  /** With distinct kept identifiers, the final ones are distinct exactly when no
      unchanged chunk carries the new identifier of a changed place. */
  lemma FinalIdsDistinct(docId: string, ws: seq<Working>)
    requires OneDocument(docId, ws) && KeptApart(ws)
    ensures Distinct(FinalIds(ws)) <==> NoReuse(docId, ws)
  {
    var ids := FinalIds(ws);
    forall i: nat, j: nat | i < j < |ws|
      ensures ids[i] == ids[j] <==> Reuses(docId, ws, i, j) || Reuses(docId, ws, j, i)
    {
      FinalIdsCoincide(docId, ws, i, j);
    }
  }

  /** Distinct identifiers of one document stay distinct exactly when no chunk that
      passes through unchanged carries the identifier renumbering gives to the place
      of a changed one. */
  lemma ApplyIdsDistinctExactly(p: Policy, docId: string, chunks: seq<ChunkRecord>)
    requires p.maxSize >= 1 && p.capBytes >= 4
    requires Distinct(Ids(chunks)) && forall c :: c in chunks ==> c.docId == docId
    ensures var ws := Cut3(p, chunks);
      Distinct(Ids(Applied(p, chunks))) <==> NoReuse(docId, ws)
  {
    if chunks != [] {
      KeptIdsOf(p, docId, chunks);
      var ws := Cut3(p, chunks);
      SubDistinct(KeptIds(ws), Ids(chunks));
      forall i: nat, j: nat | i < j < |ws| && !ws[i].boundaryChanged && !ws[j].boundaryChanged
        ensures ws[i].chunk.chunkId != ws[j].chunk.chunkId
      {
        KeptDiffer(ws, i, j);
      }
      FinalIdsDistinct(docId, ws);
      FinalIdsAre(ws);
    }
  }

  /** So they do when no input chunk carries an identifier that renumbering could
      produce. */
  lemma ApplyIdsDistinct(p: Policy, docId: string, chunks: seq<ChunkRecord>)
    requires p.maxSize >= 1 && p.capBytes >= 4
    requires Distinct(Ids(chunks))
    requires forall c :: c in chunks ==> c.docId == docId && NotCpId(docId, c.chunkId)
    ensures Distinct(Ids(Applied(p, chunks)))
  {
    var ws := Cut3(p, chunks);
    forall i: nat, j: nat | i < |ws| && j < |ws| ensures !Reuses(docId, ws, i, j) {
      if !ws[i].boundaryChanged {
        KeptIsGiven(p, docId, chunks, i);
      }
    }
    ApplyIdsDistinctExactly(p, docId, chunks);
  }

  /** A chunk that passes through unchanged has the identifier of a given one. */
  lemma KeptIsGiven(p: Policy, docId: string, chunks: seq<ChunkRecord>, i: nat)
    requires p.maxSize >= 1 && p.capBytes >= 4
    requires forall c :: c in chunks ==> c.docId == docId
    requires i < |Cut3(p, chunks)| && !Cut3(p, chunks)[i].boundaryChanged
    ensures exists c :: c in chunks && c.chunkId == Cut3(p, chunks)[i].chunk.chunkId
  {
    var ws := Cut3(p, chunks);
    var id := ws[i].chunk.chunkId;
    KeptIdsOf(p, docId, chunks);
    KeptIdsHas(ws, i);
    InLarger(id, KeptIds(ws), Ids(chunks));
    var k :| 0 <= k < |chunks| && Ids(chunks)[k] == id;
    assert chunks[k] in chunks;
  }

  lemma InLarger(id: string, a: seq<string>, b: seq<string>)
    requires id in a && multiset(a) <= multiset(b)
    ensures id in b
  {
    assert id in multiset(a) && id in multiset(b);
  }

  lemma KeptIdsOf(p: Policy, docId: string, chunks: seq<ChunkRecord>)
    requires p.maxSize >= 1 && p.capBytes >= 4 && chunks != []
    requires forall c :: c in chunks ==> c.docId == docId
    ensures multiset(KeptIds(Cut3(p, chunks))) <= multiset(Ids(chunks))
    ensures forall w :: w in Cut3(p, chunks) ==> w.chunk.docId == docId
  {
    var start := Fresh(chunks);
    FreshIds(chunks);
    MergeFromIds(p, start[0], start[1..]);
    MergeFromDoc(p, docId, start[0], start[1..]);
    KeptIdsAppend([start[0]], start[1..]);
    assert [start[0]] + start[1..] == start;
    CutIds(p, docId, MergeAll(p, start));
  }

  lemma SubDistinct(a: seq<string>, b: seq<string>)
    requires multiset(a) <= multiset(b) && Distinct(b)
    ensures Distinct(a)
  {
    forall i, j | 0 <= i < j < |a| ensures a[i] != a[j] {
      DistinctCount(b, a[i]);
      TwoOccurrences(a, i, j);
    }
  }

  /** The last condition is needed: an unchanged chunk that already carries the
      identifier of a later place clashes with the chunk renumbered there. */
  lemma ReusedCpIdClashes(c: ChunkRecord)
    requires c.contentType == "table"
    ensures var p := Policy(10, 4);
      var chunks := [c.(chunkId := CpId(c.docId, 1), content := ""), c.(chunkId := "t", content := "abcde")];
      Distinct(Ids(chunks)) && !Distinct(Ids(Applied(p, chunks)))
  {
    var p := Policy(10, 4);
    var a, b := c.(chunkId := CpId(c.docId, 1), content := ""), c.(chunkId := "t", content := "abcde");
    assert Ids([a, b])[0] == CpId(c.docId, 1) && Ids([a, b])[1] == "t";
    var ws := TwoTables(p, a, b);
    FinalAt(ws, 0);
    assert Ids(FinalAll(ws, 0))[0] == CpId(c.docId, 1) == Ids(FinalAll(ws, 0))[1];
  }

  lemma TwoTables(p: Policy, a: ChunkRecord, b: ChunkRecord) returns (ws: seq<Working>)
    requires a.contentType == "table" == b.contentType
    requires p.capBytes == 4 && a.content == "" && |b.content| == 5
    ensures ws == Cut3(p, [a, b]) && |ws| >= 2
    ensures ws[0] == Working(a, false)
    ensures ws[1].boundaryChanged && ws[1].chunk.docId == b.docId
  {
    var start := [Working(a, false), Working(b, false)];
    assert start == Fresh([a, b]) && NoMergeable(p, [a, b]);
    MergePassNothing(p, [a, b]);
    ExpandSame(Resplitter(p), start);
    ExpandTwo(Capper(p), start);
    CapOneExact(p, start[1]);
    FiveBytes(b.content);
    ws := [start[0]] + CapOne(p, start[1]);
  }

  lemma FiveBytes(s: string)
    requires |s| == 5
    ensures Bytes(s) >= 5
  {
    assert s == [s[0]] + [s[1]] + [s[2]] + [s[3]] + [s[4]];
    BytesAppend([s[0]] + [s[1]] + [s[2]] + [s[3]], [s[4]]);
    BytesAppend([s[0]] + [s[1]] + [s[2]], [s[3]]);
    BytesAppend([s[0]] + [s[1]], [s[2]]);
    BytesAppend([s[0]], [s[1]]);
    SizeOne(Utf8, s[0]);
    SizeOne(Utf8, s[1]);
    SizeOne(Utf8, s[2]);
    SizeOne(Utf8, s[3]);
    SizeOne(Utf8, s[4]);
  }
}
