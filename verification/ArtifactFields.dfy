/** The fields of ingested chunks and of section parents, and where a final chunk's
    reference stops agreeing with its own pages. */
module ArtifactFields {
  import opened Wrappers
  import opened PyText
  import opened TotalOrders
  import opened Segmentation
  import opened ChunkModels
  import opened ChunkMerge
  import opened ChunkPolicy
  import opened ChunkFields
  import opened SectionParents
  import opened ArtifactBuilder

  // ---------- a record agrees with itself ----------

  /** The reference repeats the record's own fields. */
  ghost predicate RefAgrees(c: ChunkRecord) {
    var ref := c.sourceRef;
    && ref.kbId == c.kbId && ref.docId == c.docId && ref.chunkId == c.chunkId && ref.pageStart == c.pageStart
    && ref.pageEnd == c.pageEnd && ref.headingPath == c.headingPath && ref.contentType == c.contentType
  }

  /** And so do the metadata. */
  ghost predicate Agrees(c: ChunkRecord) {
    && RefAgrees(c) && Refreshed(c)
    && "kb_id" in c.metadata && c.metadata["kb_id"] == Text(c.kbId)
    && "doc_id" in c.metadata && c.metadata["doc_id"] == Text(c.docId)
  }

  // ---------- ingested chunks ----------

  /** The first of two texts that is not blank, without surrounding spaces. */
  ghost predicate Picked(first: Option<string>, second: Option<string>, text: string) {
    var usable := first.Some? && Strip(first.value) != "";
    if usable then text == Strip(first.value)
    else second.Some? && Strip(second.value) != "" && text == Strip(second.value)
  }

  ghost predicate NameFrom(raw: Raw, name: string) {
    Picked(if raw.RawTable? then raw.tableId else raw.chunkId, raw.id, name)
  }

  ghost predicate ContentFrom(raw: Raw, text: string) {
    if raw.RawTable? then Picked(raw.displayText, raw.markdown, text) else Picked(raw.content, raw.text, text)
  }

  /** A page key that is present decides, even a null one; otherwise a table's page,
      or the extreme page of a chunk's list. */
  ghost predicate PageFrom(key: PageKey, raw: Raw, before: (int, int) -> bool, page: Option<int>) {
    if key.Some? then page == key.value
    else if raw.RawTable? then page == raw.page
    else if |raw.pages| == 0 then page == None
    else page.Some? && page.value in raw.pages && forall p :: p in raw.pages ==> before(page.value, p)
  }

  lemma {:induction false} LeastExact(pages: seq<int>)
    requires pages != []
    ensures Least(pages) in pages && forall p :: p in pages ==> Least(pages) <= p
  {
    if |pages| > 1 {
      LeastExact(pages[1..]);
      assert forall p :: p in pages <==> p == pages[0] || p in pages[1..];
    }
  }

  lemma {:induction false} GreatestExact(pages: seq<int>)
    requires pages != []
    ensures Greatest(pages) in pages && forall p :: p in pages ==> p <= Greatest(pages)
  {
    if |pages| > 1 {
      GreatestExact(pages[1..]);
      assert forall p :: p in pages <==> p == pages[0] || p in pages[1..];
    }
  }

  lemma PagesExact(raw: Raw)
    ensures PageFrom(raw.pageStart, raw, (a, b) => a <= b, PageStartOf(raw))
    ensures PageFrom(raw.pageEnd, raw, (a, b) => b <= a, PageEndOf(raw))
  {
    if raw.RawChunk? && raw.pages != [] {
      LeastExact(raw.pages);
      GreatestExact(raw.pages);
    }
  }

  ghost predicate TypeFrom(raw: Raw, contentType: string) {
    if raw.contentType.Some? && |raw.contentType.value| > 0 then contentType == raw.contentType.value
    else contentType == if raw.RawTable? then "table" else "text"
  }

  /** The id is the raw name, with the document's prefix unless it has it already; a
      table's prefix has a part of its own. */
  ghost predicate NamedAfter(docId: string, raw: Raw, name: string, id: string) {
    if docId + ":" <= name then id == name
    else id == (if raw.RawTable? then docId + ":table:" + name else docId + ":" + name)
  }

  /** Where the record comes from. */
  ghost predicate Provenance(doc: DocumentRecord, raw: Raw, name: string, c: ChunkRecord) {
    var m := c.metadata;
    && c.sourceRef.sourceFile == doc.fileName && c.sourceRef.parserEngine == doc.parserEngine
    && {"_source", "_file_name", "_extension", "parser_engine", "artifact_source"} <= m.Keys
    && m["_source"] == Text(doc.originalPath) && m["_file_name"] == Text(doc.fileName)
    && m["_extension"] == Text("." + doc.fileExt) && m["parser_engine"] == Text(doc.parserEngine)
    && m["artifact_source"] == Text(if raw.RawTable? then "tables_json" else "chunks_json")
    && if raw.RawTable? then
         && {"table_id", "classification", "structured_payload"} <= m.Keys
         && m["table_id"] == Text(name) && m["classification"] == Json(raw.classification)
         && m["structured_payload"] == Structured(raw.rows, raw.caption, raw.qualityFlags)
       else
         && {"raw_chunk_id", "block_ids", "block_types"} <= m.Keys
         && m["raw_chunk_id"] == Text(name) && m["block_ids"] == Json(raw.blockIds)
         && m["block_types"] == Json(raw.blockTypes)
  }

  /** The record says of the raw object what the raw object says of itself. */
  ghost predicate RecordOf(doc: DocumentRecord, raw: Raw, c: ChunkRecord) {
    var name := OrEmpty(RawId(raw));
    && NameFrom(raw, name)
    && ContentFrom(raw, c.content)
    && NamedAfter(doc.docId, raw, name, c.chunkId) && c.docId == doc.docId && c.kbId == doc.kbId
    && PageFrom(raw.pageStart, raw, (a, b) => a <= b, c.pageStart) && PageFrom(raw.pageEnd, raw, (a, b) => b <= a, c.pageEnd)
    && c.headingPath == raw.headingPath && c.qualityFlags == raw.qualityFlags && TypeFrom(raw, c.contentType)
    && c.parentChunkId == None && Agrees(c) && Provenance(doc, raw, name, c)
  }

  /** An object is taken when it has a name and a text that are not blank. */
  lemma CompleteExact(raw: Raw)
    ensures Complete(raw) <==>
      && (exists name :: NameFrom(raw, name))
      && (exists text :: ContentFrom(raw, text))
  {
    if Complete(raw) {
      assert NameFrom(raw, RawId(raw).value);
      var text := RawContent(raw).value;
      assert ContentFrom(raw, text);
    }
  }

  lemma NamesExact(docId: string, raw: Raw)
    ensures NamedAfter(docId, raw, OrEmpty(RawId(raw)), IdOf(docId, raw))
  {
    var name := OrEmpty(RawId(raw));
    if docId + ":table:" <= name {
      assert docId + ":" <= docId + ":table:";
    }
  }

  /** The keys that only chunks or only tables have are none of the common ones. */
  lemma SpecialKeys(raw: Raw)
    ensures var extra := if raw.RawChunk? then ChunkMetadata(raw) else TableMetadata(raw);
      extra.Keys !! {"kb_id", "doc_id", "chunk_id", "_source", "_file_name", "_extension", "content_type", "page_start",
                     "page_end", "heading_path", "parser_engine", "source_ref", "quality_flags"}
  {
  }

  ghost predicate Has(m: map<string, Value>, key: string, value: Value) {
    key in m && m[key] == value
  }

  lemma OwnKeys(doc: DocumentRecord, raw: Raw, id: string)
    ensures var m := CommonMetadata(doc, raw, id);
      && Has(m, "kb_id", Text(doc.kbId)) && Has(m, "doc_id", Text(doc.docId)) && Has(m, "chunk_id", Text(id))
      && Has(m, "content_type", Text(ContentTypeOf(raw)))
      && Has(m, "page_start", Page(PageStartOf(raw))) && Has(m, "page_end", Page(PageEndOf(raw)))
      && Has(m, "heading_path", Names(raw.headingPath)) && Has(m, "quality_flags", Names(raw.qualityFlags))
      && Has(m, "source_ref", Source(SourceRefOf(doc, raw, id)))
  {
  }

  lemma OriginKeys(doc: DocumentRecord, raw: Raw, id: string)
    ensures var m := CommonMetadata(doc, raw, id);
      && Has(m, "_source", Text(doc.originalPath)) && Has(m, "_file_name", Text(doc.fileName))
      && Has(m, "_extension", Text("." + doc.fileExt)) && Has(m, "parser_engine", Text(doc.parserEngine))
  {
  }

  lemma CommonKept(doc: DocumentRecord, raw: Raw, id: string)
    ensures forall k :: k in CommonMetadata(doc, raw, id) ==> Has(MetadataOf(doc, raw, id), k, CommonMetadata(doc, raw, id)[k])
  {
    SpecialKeys(raw);
    var common := CommonMetadata(doc, raw, id);
    var extra := if raw.RawChunk? then ChunkMetadata(raw) else TableMetadata(raw);
    assert common.Keys == {"kb_id", "doc_id", "chunk_id", "_source", "_file_name", "_extension", "content_type", "page_start",
                     "page_end", "heading_path", "parser_engine", "source_ref", "quality_flags"};
    assert MetadataOf(doc, raw, id) == common + extra;
  }

  lemma MetadataAgrees(doc: DocumentRecord, raw: Raw, index: int, start: int)
    ensures Agrees(BuilderOf(doc)(raw, index, start))
  {
    var c := BuilderOf(doc)(raw, index, start);
    OwnKeys(doc, raw, c.chunkId);
    CommonKept(doc, raw, c.chunkId);
    ShownAgrees(c, CommonMetadata(doc, raw, c.chunkId));
  }

  lemma ShownAgrees(c: ChunkRecord, m: map<string, Value>)
    requires forall k :: k in m ==> Has(c.metadata, k, m[k])
    requires RefAgrees(c)
    requires Has(m, "kb_id", Text(c.kbId)) && Has(m, "doc_id", Text(c.docId)) && Has(m, "chunk_id", Text(c.chunkId))
    requires Has(m, "content_type", Text(c.contentType)) && Has(m, "source_ref", Source(c.sourceRef))
    requires Has(m, "page_start", Page(c.pageStart)) && Has(m, "page_end", Page(c.pageEnd))
    requires Has(m, "heading_path", Names(c.headingPath)) && Has(m, "quality_flags", Names(c.qualityFlags))
    ensures Agrees(c)
  {
  }

  lemma ExtraKeys(raw: Raw)
    ensures raw.RawTable? ==>
      var m := TableMetadata(raw);
      && Has(m, "artifact_source", Text("tables_json")) && Has(m, "table_id", Text(OrEmpty(RawId(raw))))
      && Has(m, "classification", Json(raw.classification))
      && Has(m, "structured_payload", Structured(raw.rows, raw.caption, raw.qualityFlags))
    ensures raw.RawChunk? ==>
      var m := ChunkMetadata(raw);
      && Has(m, "artifact_source", Text("chunks_json")) && Has(m, "raw_chunk_id", Text(OrEmpty(RawId(raw))))
      && Has(m, "block_ids", Json(raw.blockIds)) && Has(m, "block_types", Json(raw.blockTypes))
  {
  }

  lemma MetadataTells(doc: DocumentRecord, raw: Raw, index: int, start: int)
    ensures Provenance(doc, raw, OrEmpty(RawId(raw)), BuilderOf(doc)(raw, index, start))
  {
    var c := BuilderOf(doc)(raw, index, start);
    OriginKeys(doc, raw, c.chunkId);
    CommonKept(doc, raw, c.chunkId);
    ExtraKeys(raw);
    var extra := if raw.RawChunk? then ChunkMetadata(raw) else TableMetadata(raw);
    assert forall k :: k in extra ==> Has(c.metadata, k, extra[k]);
    ShownTells(doc, raw, c, CommonMetadata(doc, raw, c.chunkId), extra, OrEmpty(RawId(raw)));
  }

  lemma ShownTells(doc: DocumentRecord, raw: Raw, c: ChunkRecord, m: map<string, Value>, extra: map<string, Value>,
                   name: string)
    requires c.sourceRef.sourceFile == doc.fileName && c.sourceRef.parserEngine == doc.parserEngine
    requires forall k :: k in m ==> Has(c.metadata, k, m[k])
    requires forall k :: k in extra ==> Has(c.metadata, k, extra[k])
    requires Has(m, "_source", Text(doc.originalPath)) && Has(m, "_file_name", Text(doc.fileName))
    requires Has(m, "_extension", Text("." + doc.fileExt)) && Has(m, "parser_engine", Text(doc.parserEngine))
    requires Has(extra, "artifact_source", Text(if raw.RawTable? then "tables_json" else "chunks_json"))
    requires raw.RawTable? ==>
      && Has(extra, "table_id", Text(name)) && Has(extra, "classification", Json(raw.classification))
      && Has(extra, "structured_payload", Structured(raw.rows, raw.caption, raw.qualityFlags))
    requires raw.RawChunk? ==>
      && Has(extra, "raw_chunk_id", Text(name)) && Has(extra, "block_ids", Json(raw.blockIds))
      && Has(extra, "block_types", Json(raw.blockTypes))
    ensures Provenance(doc, raw, name, c)
  {
  }

  lemma PlainFields(doc: DocumentRecord, raw: Raw, index: int, start: int)
    requires Complete(raw)
    ensures var c := BuilderOf(doc)(raw, index, start);
      && ContentFrom(raw, c.content)
      && c.chunkId == IdOf(doc.docId, raw) && c.docId == doc.docId && c.kbId == doc.kbId
      && c.pageStart == PageStartOf(raw) && c.pageEnd == PageEndOf(raw)
      && c.headingPath == raw.headingPath && c.qualityFlags == raw.qualityFlags && TypeFrom(raw, c.contentType)
      && c.parentChunkId == None
  {
  }

  /** Every ingested chunk is the record of its raw object. */
  lemma IngestedFields(doc: DocumentRecord, raws: seq<Raw>, n: nat, records: seq<ChunkRecord>, k: nat)
    requires Tiles(BuilderOf(doc), raws, n, records) && k < n
    ensures RecordOf(doc, raws[k], records[k])
  {
    var raw, start := raws[k], End(records[..k]);
    assert records[k] == BuilderOf(doc)(raw, k, start) && Complete(raw);
    BuiltFields(doc, raw, k, start);
  }

  lemma BuiltFields(doc: DocumentRecord, raw: Raw, index: int, start: int)
    requires Complete(raw)
    ensures RecordOf(doc, raw, BuilderOf(doc)(raw, index, start))
  {
    PlainFields(doc, raw, index, start);
    NamesExact(doc.docId, raw);
    PagesExact(raw);
    MetadataAgrees(doc, raw, index, start);
    MetadataTells(doc, raw, index, start);
  }

  // ---------- section parents ----------

  /** The extreme page of a group, if any of its chunks has one. */
  ghost predicate ExtremePage(pages: seq<Option<int>>, before: (int, int) -> bool, page: Option<int>) {
    if page.None? then forall k :: 0 <= k < |pages| ==> pages[k].None?
    else page in pages && forall k :: 0 <= k < |pages| && pages[k].Some? ==> before(page.value, pages[k].value)
  }

  lemma {:induction false} FirstPageExact(group: seq<ChunkRecord>)
    ensures ExtremePage(StartPages(group), (a, b) => a <= b, FirstPage(group))
  {
    if group != [] {
      FirstPageExact(group[1..]);
      assert StartPages(group) == [group[0].pageStart] + StartPages(group[1..]);
    }
  }

  lemma {:induction false} LastPageExact(group: seq<ChunkRecord>)
    ensures ExtremePage(EndPages(group), (a, b) => b <= a, LastPage(group))
  {
    if group != [] {
      LastPageExact(group[1..]);
      assert EndPages(group) == [group[0].pageEnd] + EndPages(group[1..]);
    }
  }

  lemma {:induction false} AllFlagsExact(group: seq<ChunkRecord>)
    ensures forall f :: f in AllFlags(group) <==> exists k :: 0 <= k < |group| && f in group[k].qualityFlags
  {
    if group != [] {
      AllFlagsExact(group[1..]);
      forall f ensures f in AllFlags(group) <==> exists k :: 0 <= k < |group| && f in group[k].qualityFlags {
        if k :| 0 <= k < |group| && f in group[k].qualityFlags {
          assert k > 0 ==> group[1..][k - 1] == group[k];
        }
        if k :| 0 <= k < |group[1..]| && f in group[1..][k].qualityFlags {
          assert group[k + 1] == group[1..][k];
        }
      }
    }
  }

  /** The first chunk's document and heading, the group's text, span, pages and
      flags, and the ids of all its chunks. */
  ghost predicate ParentOf(group: seq<ChunkRecord>, n: nat, parent: ChunkRecord)
    requires group != []
  {
    && parent.docId == group[0].docId && parent.kbId == group[0].kbId && parent.headingPath == group[0].headingPath
    && parent.chunkId == group[0].docId + ":parent:" + Padded(n) && parent.chunkIndex == n
    && parent.contentType == "section_parent" && parent.parentChunkId == None
    && parent.content == Joined(group)
    && parent.startIndex == group[0].startIndex && parent.endIndex == group[|group| - 1].endIndex
    && ExtremePage(StartPages(group), (a, b) => a <= b, parent.pageStart)
    && ExtremePage(EndPages(group), (a, b) => b <= a, parent.pageEnd)
    && Sorted(StrLe, parent.qualityFlags) && Distinct(parent.qualityFlags)
    && (forall f :: f in parent.qualityFlags <==> exists k :: 0 <= k < |group| && f in group[k].qualityFlags)
    && parent.sourceRef.sourceFile == group[0].sourceRef.sourceFile
    && parent.sourceRef.parserEngine == group[0].sourceRef.parserEngine
  }

  /** The parent's metadata: its own fields, its role, its children, and where the
      first chunk came from, as far as that says so. */
  ghost predicate ParentTells(group: seq<ChunkRecord>, parent: ChunkRecord)
    requires group != []
  {
    var m, origin := parent.metadata, {"_source", "_file_name", "_extension", "parser_engine"};
    && Has(m, "chunk_role", Text("parent")) && Has(m, "child_chunk_ids", Names(Ids(group)))
    && forall k :: k in origin ==> (k in m <==> k in group[0].metadata) && (k in m ==> m[k] == group[0].metadata[k])
  }

  lemma ParentMetadataKeys(first: ChunkRecord, id: string, ref: SourceRef, flags: seq<string>)
    ensures var m := ParentMetadata(first, id, ref, flags);
      && Has(m, "kb_id", Text(first.kbId)) && Has(m, "doc_id", Text(first.docId)) && Has(m, "chunk_id", Text(id))
      && Has(m, "content_type", Text("section_parent")) && Has(m, "source_ref", Source(ref))
      && Has(m, "page_start", Page(ref.pageStart)) && Has(m, "page_end", Page(ref.pageEnd))
      && Has(m, "heading_path", Names(first.headingPath)) && Has(m, "quality_flags", Names(flags))
      && Has(m, "chunk_role", Text("parent"))
    ensures ParentMetadata(first, id, ref, flags).Keys !! INHERITED_KEYS + {"child_chunk_ids"}
  {
  }

  lemma ParentKeys(group: seq<ChunkRecord>, n: nat)
    requires group != []
    ensures var parent := OneParent(group, n);
      var own := ParentMetadata(group[0], parent.chunkId, parent.sourceRef, parent.qualityFlags);
      && (forall k :: k in own ==> Has(parent.metadata, k, own[k]))
      && Has(parent.metadata, "child_chunk_ids", Names(Ids(group)))
      && forall k :: k in INHERITED_KEYS ==>
           && (k in parent.metadata <==> k in group[0].metadata)
           && (k in parent.metadata ==> parent.metadata[k] == group[0].metadata[k])
  {
    var parent := OneParent(group, n);
    var own := ParentMetadata(group[0], parent.chunkId, parent.sourceRef, parent.qualityFlags);
    ParentMetadataKeys(group[0], parent.chunkId, parent.sourceRef, parent.qualityFlags);
    assert parent.metadata == (own + Inherited(group[0]))["child_chunk_ids" := Names(Ids(group))];
  }

  /** A section parent has the fields of its group and agrees with itself, provided
      its first chunk's reference agrees with the chunk. */
  lemma ParentFields(group: seq<ChunkRecord>, n: nat)
    requires group != [] && RefAgrees(group[0])
    ensures var parent := OneParent(group, n);
      ParentOf(group, n, parent) && ParentTells(group, parent) && Agrees(parent)
  {
    var parent := OneParent(group, n);
    FirstPageExact(group);
    LastPageExact(group);
    AllFlagsExact(group);
    SortedSetExact(AllFlags(group));
    ParentKeys(group, n);
    ParentMetadataKeys(group[0], parent.chunkId, parent.sourceRef, parent.qualityFlags);
    ShownAgrees(parent, ParentMetadata(group[0], parent.chunkId, parent.sourceRef, parent.qualityFlags));
  }

  // ---------- references after the policy ----------

  /** Of records that agree with themselves, a final chunk agrees with itself exactly
      when the merge that made it left its first chunk's pages as they were: the
      reference keeps the pages of the first chunk, the record has the group's. */
  lemma FinalAgreesExactly(p: Policy, chunks: seq<ChunkRecord>, k: nat) returns (g: seq<ChunkRecord>)
    requires k < |Applied(p, chunks)| && forall c :: c in chunks ==> Agrees(c)
    ensures g in Groups(p, chunks) && g != [] && Inherits(Applied(p, chunks)[k], g)
    ensures var c := Applied(p, chunks)[k];
      && (Agrees(c) <==> c.pageStart == g[0].pageStart && c.pageEnd == g[0].pageEnd)
      && c.sourceRef.pageStart == g[0].pageStart && c.sourceRef.pageEnd == g[0].pageEnd
  {
    AppliedFields(p, chunks);
    var v := Cut3(p, chunks)[k];
    g := WorkingDescent(p, chunks, v);
    DescentInherits(v, Applied(p, chunks)[k], g);
    GroupMembers(p, chunks, g);
    FoldKeeps(g);
    KeptAgrees(g[0], v.chunk, Applied(p, chunks)[k]);
  }

  lemma GroupMembers(p: Policy, chunks: seq<ChunkRecord>, g: seq<ChunkRecord>)
    requires g in Groups(p, chunks) && g != []
    ensures g[0] in chunks
  {
    MergePassGroups(p, chunks);
    MemberOfConcat(Groups(p, chunks), g, g[0]);
  }

  lemma {:induction false} MemberOfConcat(groups: seq<seq<ChunkRecord>>, g: seq<ChunkRecord>, c: ChunkRecord)
    requires g in groups && c in g
    ensures c in Concat(groups)
  {
    if g != groups[0] {
      MemberOfConcat(groups[1..], g, c);
    }
  }

  lemma KeptAgrees(first: ChunkRecord, before: ChunkRecord, c: ChunkRecord)
    requires Agrees(first) && before.sourceRef == first.sourceRef && before.metadata == first.metadata
    requires before.docId == first.docId && before.kbId == first.kbId && before.headingPath == first.headingPath
    requires before.contentType == first.contentType
    requires SameElsewhere(c, before) && Refreshed(c) && OtherMetadataKept(c, before)
    ensures Agrees(c) <==> c.pageStart == first.pageStart && c.pageEnd == first.pageEnd
    ensures c.sourceRef.pageStart == first.pageStart && c.sourceRef.pageEnd == first.pageEnd
  {
    var own := {"chunk_id", "heading_path", "page_start", "page_end", "quality_flags", "content_type", "source_ref"};
    assert "kb_id" !in own && "doc_id" !in own;
    assert "kb_id" in first.metadata - own && "doc_id" in first.metadata - own;
    assert (c.metadata - own)["kb_id"] == Text(first.kbId) && (c.metadata - own)["doc_id"] == Text(first.docId);
  }
}
