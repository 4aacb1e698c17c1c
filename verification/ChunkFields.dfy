/** What a chunk carries through the policy: its number, its refreshed reference and
    metadata, and everything it inherits from the chunks it was made of. */
module ChunkFields {
  import opened TotalOrders
  import opened ChunkText
  import opened ChunkModels
  import opened ChunkMerge
  import opened ChunkPolicy

  // ---------- numbers in identifiers ----------

  ghost predicate Digits(s: string) {
    forall k :: 0 <= k < |s| ==> '0' <= s[k] <= '9'
  }

  lemma {:induction false} DecimalDigits(n: nat)
    ensures Digits(Decimal(n)) && |Decimal(n)| >= 1
    ensures |Decimal(n)| > 1 ==> Decimal(n)[0] != '0'
  {
    assert forall d: nat :: d < 10 ==> '0' <= Digit(d) <= '9';
    assert forall d: nat :: 0 < d < 10 ==> Digit(d) != '0';
    if n >= 10 {
      DecimalDigits(n / 10);
    }
  }

  lemma {:induction false} ZerosOnly(k: nat)
    ensures |Zeros(k)| == k && forall i :: 0 <= i < k ==> Zeros(k)[i] == '0'
  {
    if k > 0 {
      ZerosOnly(k - 1);
    }
  }

  lemma DigitsJoined(zeros: string, number: string)
    requires Digits(number) && |number| >= 1 && forall i :: 0 <= i < |zeros| ==> zeros[i] == '0'
    ensures Digits(zeros + number) && (zeros == "" ==> (zeros + number)[0] == number[0])
  {
  }

  /** The padded number consists of digits, at least five, denotes the number, and
      beyond five digits does not begin with a zero. */
  lemma PaddedExact(n: nat)
    ensures Digits(Padded(n)) && Parse(Padded(n)) == n
    ensures |Padded(n)| >= 5 && (|Padded(n)| > 5 ==> Padded(n)[0] != '0')
  {
    var k := if |Decimal(n)| < 5 then 5 - |Decimal(n)| else 0;
    DecimalDigits(n);
    ZerosOnly(k);
    DigitsJoined(Zeros(k), Decimal(n));
    PaddedParse(n);
    assert Padded(n) == Zeros(k) + Decimal(n);
  }

  lemma PaddedParse(n: nat)
    ensures Parse(Padded(n)) == n
  {
    ParseDecimal(n);
    ParseZeros(if |Decimal(n)| < 5 then 5 - |Decimal(n)| else 0, Decimal(n));
    assert Zeros(0) + Decimal(n) == Decimal(n);
  }

  // ---------- one final chunk ----------

  /** The reference and the metadata repeat the chunk's own fields. */
  ghost predicate Refreshed(c: ChunkRecord) {
    && c.sourceRef.chunkId == c.chunkId
    && {"chunk_id", "heading_path", "page_start", "page_end", "quality_flags", "content_type", "source_ref"}
       <= c.metadata.Keys
    && c.metadata["chunk_id"] == Text(c.chunkId)
    && c.metadata["heading_path"] == Names(c.headingPath)
    && c.metadata["page_start"] == Page(c.pageStart)
    && c.metadata["page_end"] == Page(c.pageEnd)
    && c.metadata["quality_flags"] == Names(c.qualityFlags)
    && c.metadata["content_type"] == Text(c.contentType)
    && c.metadata["source_ref"] == Source(c.sourceRef)
  }

  /** All other metadata are those of the chunk before. */
  ghost predicate OtherMetadataKept(c: ChunkRecord, before: ChunkRecord) {
    var own := {"chunk_id", "heading_path", "page_start", "page_end", "quality_flags", "content_type", "source_ref"};
    c.metadata - own == before.metadata - own
  }

  /** Only number, identifier, reference and metadata differ. */
  ghost predicate SameElsewhere(c: ChunkRecord, before: ChunkRecord) {
    && c == before.(chunkId := c.chunkId, chunkIndex := c.chunkIndex, sourceRef := c.sourceRef, metadata := c.metadata)
    && c.sourceRef == before.sourceRef.(chunkId := c.sourceRef.chunkId)
  }

  lemma FinalFields(w: Working, n: nat)
    ensures Refreshed(FinalOne(w, n)) && OtherMetadataKept(FinalOne(w, n), w.chunk) && SameElsewhere(FinalOne(w, n), w.chunk)
    ensures FinalOne(w, n).chunkIndex == n
    ensures FinalOne(w, n).chunkId == if w.boundaryChanged then w.chunk.docId + ":cp" + Padded(n) else w.chunk.chunkId
  {
  }

  /** Final chunks are numbered from zero in order; a changed one is named after its
      number, any other keeps its name; reference and metadata agree with the record,
      and all else is as it was before numbering. */
  lemma AppliedFields(p: Policy, chunks: seq<ChunkRecord>)
    ensures var out, ws := Applied(p, chunks), Cut3(p, chunks);
      && |out| == |ws|
      && forall k :: 0 <= k < |out| ==>
           && out[k].chunkIndex == k
           && out[k].chunkId == (if ws[k].boundaryChanged then out[k].docId + ":cp" + Padded(k) else ws[k].chunk.chunkId)
           && Refreshed(out[k]) && OtherMetadataKept(out[k], ws[k].chunk) && SameElsewhere(out[k], ws[k].chunk)
  {
    var out, ws := Applied(p, chunks), Cut3(p, chunks);
    FinalAt(ws, 0);
    forall k | 0 <= k < |out|
      ensures out[k].chunkIndex == k
      ensures out[k].chunkId == (if ws[k].boundaryChanged then out[k].docId + ":cp" + Padded(k) else ws[k].chunk.chunkId)
      ensures Refreshed(out[k]) && OtherMetadataKept(out[k], ws[k].chunk) && SameElsewhere(out[k], ws[k].chunk)
    {
      assert out[k] == FinalOne(ws[k], 0 + k);
      FinalFields(ws[k], k);
    }
  }

  // ---------- descent ----------

  /** A chunk made of another: same document, heading, type, pages and the rest; its
      own text and span; the same flags, or these and the one for an atomic split. */
  ghost predicate PieceOf(v: ChunkRecord, c: ChunkRecord) {
    && v == c.(content := v.content, startIndex := v.startIndex, endIndex := v.endIndex, qualityFlags := v.qualityFlags)
    && (v.qualityFlags == c.qualityFlags || FlagsWithSplit(v.qualityFlags, c.qualityFlags))
  }

  /** The flags and "atomic_split_by_size", sorted and each once. */
  ghost predicate FlagsWithSplit(flags: seq<string>, given: seq<string>) {
    && Sorted(StrLe, flags) && Distinct(flags)
    && forall f :: f in flags <==> f in given || f == "atomic_split_by_size"
  }

  lemma ResplitFields(p: Policy, w: Working, v: Working)
    requires v in ResplitOne(p, w)
    ensures v == w || (v.boundaryChanged && IsText(w.chunk) && |w.chunk.content| > p.maxSize)
    ensures PieceOf(v.chunk, w.chunk) && v.chunk.qualityFlags == w.chunk.qualityFlags
  {
    if IsText(w.chunk) && |w.chunk.content| > p.maxSize {
      var pieces := SplitPieces(w.chunk.content, p.maxSize);
      PieceChunksExact(w.chunk, w.chunk.qualityFlags, pieces, w.chunk.startIndex);
    }
  }

  /** The flag marks exactly the pieces of chunks over the byte cap. */
  lemma CapFields(p: Policy, w: Working, v: Working)
    requires v in CapOne(p, w)
    ensures if Bytes(w.chunk.content) <= p.capBytes then v == w
            else v.boundaryChanged && PieceOf(v.chunk, w.chunk) && FlagsWithSplit(v.chunk.qualityFlags, w.chunk.qualityFlags)
  {
    if Bytes(w.chunk.content) > p.capBytes {
      var flags := w.chunk.qualityFlags + [ATOMIC_SPLIT_QUALITY_FLAG];
      PieceChunksExact(w.chunk, SortedSet(flags), BytePieces(w.chunk.content, p.capBytes), w.chunk.startIndex);
      SortedSetExact(flags);
    }
  }

  /** A joined chunk is its first one but for text, end, pages and flags. */
  lemma {:induction false} FoldKeeps(g: seq<ChunkRecord>)
    requires g != []
    ensures var c := Fold(g).chunk;
      c == g[0].(content := c.content, endIndex := c.endIndex, pageStart := c.pageStart, pageEnd := c.pageEnd,
                 qualityFlags := c.qualityFlags)
  {
    if |g| >= 2 {
      FoldKeeps(g[..|g| - 1]);
    }
  }

  /** Its flags are in order and each once. */
  lemma FoldFlagsSorted(g: seq<ChunkRecord>)
    requires |g| >= 2
    ensures Sorted(StrLe, Fold(g).chunk.qualityFlags) && Distinct(Fold(g).chunk.qualityFlags)
  {
    var n := |g| - 1;
    SortedSetExact(Fold(g[..n]).chunk.qualityFlags + g[n].qualityFlags);
  }

  /** A piece of what the group becomes. */
  ghost predicate DescendsFrom(v: Working, g: seq<ChunkRecord>)
    requires g != []
  {
    PieceOf(v.chunk, Fold(g).chunk) && (v.boundaryChanged || v == Fold(g))
  }

  lemma WorkingDescent(p: Policy, chunks: seq<ChunkRecord>, v: Working) returns (g: seq<ChunkRecord>)
    requires v in Cut3(p, chunks)
    ensures g in Groups(p, chunks) && g != [] && DescendsFrom(v, g)
  {
    var merged, groups := MergeAll(p, Fresh(chunks)), Groups(p, chunks);
    var u := ExpandMember(Capper(p), Expand(Resplitter(p), merged), v);
    var w := ExpandMember(Resplitter(p), merged, u);
    CapFields(p, u, v);
    ResplitFields(p, w, u);
    MergePassGroups(p, chunks);
    FoldAllAt(groups);
    var j :| 0 <= j < |merged| && merged[j] == w;
    g := groups[j];
  }

  /** The fields a final chunk has from its group: the first one's document, knowledge
      base, heading, type and parent, the group's pages, and the group's flags, or
      these and the split flag. */
  ghost predicate Inherits(c: ChunkRecord, g: seq<ChunkRecord>)
    requires g != []
  {
    var merged := Fold(g).chunk;
    && c.docId == g[0].docId && c.kbId == g[0].kbId && c.headingPath == g[0].headingPath
    && c.contentType == g[0].contentType && c.parentChunkId == g[0].parentChunkId
    && c.pageStart == merged.pageStart && c.pageEnd == merged.pageEnd
    && (c.qualityFlags == merged.qualityFlags || FlagsWithSplit(c.qualityFlags, merged.qualityFlags))
  }

  lemma DescentInherits(v: Working, c: ChunkRecord, g: seq<ChunkRecord>)
    requires g != [] && DescendsFrom(v, g) && SameElsewhere(c, v.chunk)
    ensures Inherits(c, g)
    ensures v.boundaryChanged || (|g| == 1 && c.content == g[0].content && v.chunk.chunkId == g[0].chunkId)
  {
    FoldKeeps(g);
    FoldContent(g);
  }

  /** Every final chunk comes from one group of neighbouring chunks that were merged;
      an unchanged one is the only one of its group, with its text and name. */
  lemma AppliedDescent(p: Policy, chunks: seq<ChunkRecord>, k: nat) returns (g: seq<ChunkRecord>)
    requires k < |Applied(p, chunks)|
    ensures g in Groups(p, chunks) && g != [] && Inherits(Applied(p, chunks)[k], g)
    ensures |Cut3(p, chunks)| == |Applied(p, chunks)|
    ensures Cut3(p, chunks)[k].boundaryChanged
            || (|g| == 1 && Applied(p, chunks)[k].content == g[0].content && Applied(p, chunks)[k].chunkId == g[0].chunkId)
  {
    AppliedFields(p, chunks);
    g := WorkingDescent(p, chunks, Cut3(p, chunks)[k]);
    DescentInherits(Cut3(p, chunks)[k], Applied(p, chunks)[k], g);
  }
}
