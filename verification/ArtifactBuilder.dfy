/** Building chunk records from parsed artifacts, and the way from there to the
    stored chunks. */
module ArtifactBuilder {
  import opened Wrappers
  import opened PyText
  import opened TotalOrders
  import opened ChunkModels
  import opened ChunkMerge
  import opened ChunkPolicy
  import opened SectionParents
  import KnowledgeMetadataStore

  datatype DocumentRecord = DocumentRecord(
    docId: string, kbId: string, fileName: string, fileExt: string, originalPath: string, parserEngine: string)

  /** A page key of a raw object: absent, or present and possibly null. */
  type PageKey = Option<Option<int>>

  /** One object of `chunks.json` or `tables.json`; a key whose value is not of the
      type the builder looks for counts as absent, and what it only passes on is kept
      as its JSON text, the default where absent. */
  datatype Raw =
    | RawChunk(chunkId: Option<string>, id: Option<string>, content: Option<string>, text: Option<string>,
               pages: seq<int>, pageStart: PageKey, pageEnd: PageKey,
               headingPath: seq<string>, contentType: Option<string>, qualityFlags: seq<string>,
               blockIds: string, blockTypes: string)
    | RawTable(tableId: Option<string>, id: Option<string>, displayText: Option<string>, markdown: Option<string>,
               page: Option<int>, pageStart: PageKey, pageEnd: PageKey,
               headingPath: seq<string>, contentType: Option<string>, qualityFlags: seq<string>,
               classification: string, rows: string, caption: string)

  // ---------- fields ----------

  /** The first of two texts that is not blank, stripped. */
  function RequiredStr(first: Option<string>, second: Option<string>): Option<string> {
    if first.Some? && !Blank(first.value) then Some(Strip(first.value))
    else if second.Some? && !Blank(second.value) then Some(Strip(second.value))
    else None
  }

  function RawId(raw: Raw): Option<string> {
    RequiredStr(if raw.RawChunk? then raw.chunkId else raw.tableId, raw.id)
  }

  function RawContent(raw: Raw): Option<string> {
    if raw.RawChunk? then RequiredStr(raw.content, raw.text) else RequiredStr(raw.displayText, raw.markdown)
  }

  predicate Complete(raw: Raw) {
    RawId(raw).Some? && RawContent(raw).Some?
  }

  /** The required text; a raw object without it is refused before this matters. */
  function OrEmpty(text: Option<string>): string {
    if text.Some? then text.value else ""
  }

  predicate StartsWith(s: string, prefix: string) {
    prefix <= s
  }

  function NormalizeChunkId(docId: string, localId: string): string {
    if StartsWith(localId, docId + ":") then localId else docId + ":" + localId
  }

  function NormalizeTableChunkId(docId: string, tableId: string): string {
    var prefix := docId + ":table:";
    if StartsWith(tableId, prefix) then tableId
    else if StartsWith(tableId, docId + ":") then tableId
    else prefix + tableId
  }

  function IdOf(docId: string, raw: Raw): string {
    var id := OrEmpty(RawId(raw));
    if raw.RawChunk? then NormalizeChunkId(docId, id) else NormalizeTableChunkId(docId, id)
  }

  /** Python's `min` and `max` of the page list. */
  function Least(pages: seq<int>): int
    requires pages != []
  {
    if |pages| == 1 then pages[0] else if pages[0] <= Least(pages[1..]) then pages[0] else Least(pages[1..])
  }

  function Greatest(pages: seq<int>): int
    requires pages != []
  {
    if |pages| == 1 then pages[0] else if pages[0] >= Greatest(pages[1..]) then pages[0] else Greatest(pages[1..])
  }

  function PageStartOf(raw: Raw): Option<int> {
    if raw.pageStart.Some? then raw.pageStart.value
    else if raw.RawTable? then raw.page
    else if raw.pages == [] then None
    else Some(Least(raw.pages))
  }

  function PageEndOf(raw: Raw): Option<int> {
    if raw.pageEnd.Some? then raw.pageEnd.value
    else if raw.RawTable? then raw.page
    else if raw.pages == [] then None
    else Some(Greatest(raw.pages))
  }

  function ContentTypeOf(raw: Raw): string {
    if raw.contentType.Some? && raw.contentType.value != "" then raw.contentType.value
    else if raw.RawChunk? then "text"
    else "table"
  }

  // ---------- records ----------

  function SourceRefOf(doc: DocumentRecord, raw: Raw, chunkId: string): SourceRef {
    SourceRef(doc.kbId, doc.docId, chunkId, doc.fileName, PageStartOf(raw), PageEndOf(raw), raw.headingPath,
              ContentTypeOf(raw), doc.parserEngine)
  }

  function CommonMetadata(doc: DocumentRecord, raw: Raw, chunkId: string): map<string, Value> {
    map[
      "kb_id" := Text(doc.kbId),
      "doc_id" := Text(doc.docId),
      "chunk_id" := Text(chunkId),
      "_source" := Text(doc.originalPath),
      "_file_name" := Text(doc.fileName),
      "_extension" := Text("." + doc.fileExt),
      "content_type" := Text(ContentTypeOf(raw)),
      "page_start" := Page(PageStartOf(raw)),
      "page_end" := Page(PageEndOf(raw)),
      "heading_path" := Names(raw.headingPath),
      "parser_engine" := Text(doc.parserEngine),
      "source_ref" := Source(SourceRefOf(doc, raw, chunkId)),
      "quality_flags" := Names(raw.qualityFlags)]
  }

  function ChunkMetadata(raw: Raw): map<string, Value>
    requires raw.RawChunk?
  {
    map["artifact_source" := Text("chunks_json"), "raw_chunk_id" := Text(OrEmpty(RawId(raw))),
        "block_ids" := Json(raw.blockIds), "block_types" := Json(raw.blockTypes)]
  }

  function TableMetadata(raw: Raw): map<string, Value>
    requires raw.RawTable?
  {
    map["artifact_source" := Text("tables_json"), "table_id" := Text(OrEmpty(RawId(raw))),
        "classification" := Json(raw.classification),
        "structured_payload" := Structured(raw.rows, raw.caption, raw.qualityFlags)]
  }

  function MetadataOf(doc: DocumentRecord, raw: Raw, chunkId: string): map<string, Value> {
    CommonMetadata(doc, raw, chunkId) + if raw.RawChunk? then ChunkMetadata(raw) else TableMetadata(raw)
  }

  /** Builds the record of a raw object from its place and its start. */
  type Builder = (Raw, int, int) -> ChunkRecord

  function BuilderOf(doc: DocumentRecord): Builder {
    (raw: Raw, index: int, start: int) =>
      var id := IdOf(doc.docId, raw);
      var content := OrEmpty(RawContent(raw));
      ChunkRecord(id, doc.docId, doc.kbId, content, index, start, start + |content|, raw.headingPath,
                  PageStartOf(raw), PageEndOf(raw), ContentTypeOf(raw), SourceRefOf(doc, raw, id), raw.qualityFlags,
                  MetadataOf(doc, raw, id), None)
  }

  /** The builder puts each record where it is told and lets it span its content. */
  ghost predicate Places(build: Builder) {
    forall raw, index, start ::
      var c := build(raw, index, start);
      c.chunkIndex == index && c.startIndex == start && Spans(c)
  }

  /** It gives each record the text of the raw object and its id in the document. */
  ghost predicate Carries(build: Builder, docId: string) {
    forall raw, index, start ::
      var c := build(raw, index, start);
      c.docId == docId && c.chunkId == IdOf(docId, raw) && c.content == OrEmpty(RawContent(raw))
  }

  lemma BuilderIsRegular(doc: DocumentRecord)
    ensures Places(BuilderOf(doc)) && Carries(BuilderOf(doc), doc.docId)
  {
  }

  // ---------- the cursor ----------

  /** `records` are the records of the first `n` raw objects, laid end to end. */
  ghost predicate Tiles(build: Builder, raws: seq<Raw>, n: nat, records: seq<ChunkRecord>) {
    && n == |records| <= |raws|
    && (forall k :: 0 <= k < n ==> Complete(raws[k]))
    && (forall k :: 0 <= k < n ==> records[k] == build(raws[k], k, End(records[..k])))
  }

  function End(records: seq<ChunkRecord>): int {
    if records == [] then 0 else records[|records| - 1].endIndex
  }

  lemma TilesNext(build: Builder, raws: seq<Raw>, n: nat, records: seq<ChunkRecord>)
    requires Tiles(build, raws, n, records) && n < |raws| && Complete(raws[n])
    ensures Tiles(build, raws, n + 1, records + [build(raws[n], n, End(records))])
  {
    var next := records + [build(raws[n], n, End(records))];
    assert forall k :: 0 <= k <= n ==> next[..k] == records[..k];
    assert records[..n] == records;
  }

  /** One loop of the preparation: a record from each raw object from `lo` to `hi`. */
  method AppendAll(build: Builder, raws: seq<Raw>, lo: nat, hi: nat, before: seq<ChunkRecord>)
    returns (r: Result<seq<ChunkRecord>>)
    requires Places(build) && Tiles(build, raws, lo, before) && End(before) >= 0 && lo <= hi <= |raws|
    ensures r.Ok? <==> forall k :: lo <= k < hi ==> Complete(raws[k])
    ensures r.Ok? ==> Tiles(build, raws, hi, r.value) && End(r.value) >= 0
  {
    var records := before;
    var cursor := End(before);
    for i := lo to hi
      invariant Tiles(build, raws, i, records) && cursor == End(records) >= 0
    {
      if !Complete(raws[i]) {
        return Raised("a field is required");
      }
      TilesNext(build, raws, i, records);
      var record := build(raws[i], |records|, cursor);
      assert Spans(record);
      cursor := if record.endIndex > cursor then record.endIndex else cursor;
      records := records + [record];
    }
    return Ok(records);
  }

  /** Builds one record from each raw chunk and then from each raw table. */
  method Prepare(doc: DocumentRecord, chunks: seq<Raw>, tables: seq<Raw>, fatalErrors: seq<string>)
    returns (r: Result<seq<ChunkRecord>>)
    ensures r.Ok? <==> fatalErrors == [] && forall k :: 0 <= k < |chunks + tables| ==> Complete((chunks + tables)[k])
    ensures r.Ok? ==> Tiles(BuilderOf(doc), chunks + tables, |chunks| + |tables|, r.value)
  {
    if fatalErrors != [] {
      return Raised("quality_report.fatal_errors is not empty");
    }
    var raws := chunks + tables;
    BuilderIsRegular(doc);
    r := AppendAll(BuilderOf(doc), raws, 0, |chunks|, []);
    if r.Ok? {
      r := AppendAll(BuilderOf(doc), raws, |chunks|, |raws|, r.value);
    }
  }

  /** The records tile the text: numbered from 0, each spanning its content, and the
      distance between two starts is the length of the contents between them. */
  lemma {:induction false} TilesCover(build: Builder, raws: seq<Raw>, records: seq<ChunkRecord>, j: nat, k: nat)
    requires Places(build) && Tiles(build, raws, |raws|, records) && j <= k < |raws|
    ensures records[k].chunkIndex == k && Spans(records[k])
    ensures records[k].startIndex - records[j].startIndex == |Between(records, j, k)|
    ensures j == 0 ==> records[j].startIndex == 0
    decreases k - j
  {
    if j < k {
      TilesCover(build, raws, records, j + 1, k);
      assert End(records[..j + 1]) == records[j].endIndex;
    }
  }

  /** The contents of records `j` up to `k`, joined. */
  ghost function Between(records: seq<ChunkRecord>, j: nat, k: nat): string
    requires j <= k <= |records|
    decreases k - j
  {
    if j == k then "" else records[j].content + Between(records, j + 1, k)
  }

  // ---------- identifiers ----------

  /** The name of a raw object inside its document. */
  function LocalName(docId: string, raw: Raw): string {
    var id := OrEmpty(RawId(raw));
    if StartsWith(id, docId + ":") then id[|docId| + 1..]
    else if raw.RawChunk? then id
    else "table:" + id
  }

  lemma IdIsLocalName(docId: string, raw: Raw)
    ensures IdOf(docId, raw) == docId + ":" + LocalName(docId, raw)
  {
    var id := OrEmpty(RawId(raw));
    var prefix := docId + ":";
    assert StartsWith(id, prefix) ==> id == prefix + id[|prefix|..];
    assert docId + ":table:" == prefix + "table:";
    assert StartsWith(id, docId + ":table:") ==> id[..|prefix|] == prefix;
    assert docId + ":table:" + id == prefix + ("table:" + id);
  }

  /** Normalising an identifier again changes nothing. */
  lemma NormalizeTwice(docId: string, id: string)
    ensures NormalizeChunkId(docId, NormalizeChunkId(docId, id)) == NormalizeChunkId(docId, id)
    ensures NormalizeTableChunkId(docId, NormalizeTableChunkId(docId, id)) == NormalizeTableChunkId(docId, id)
    ensures NormalizeChunkId(docId, NormalizeTableChunkId(docId, id)) == NormalizeTableChunkId(docId, id)
  {
    assert (docId + ":table:" + id)[..|docId| + 1] == docId + ":";
    assert NormalizeTableChunkId(docId, id)[..|docId| + 1] == docId + ":";
    assert NormalizeChunkId(docId, id)[..|docId| + 1] == docId + ":";
  }

  ghost predicate DistinctNames(docId: string, raws: seq<Raw>) {
    forall j, k :: 0 <= j < k < |raws| ==> LocalName(docId, raws[j]) != LocalName(docId, raws[k])
  }

  /** The records have distinct identifiers exactly when the raw objects have
      distinct names inside the document. */
  lemma IdsDistinctIffNames(build: Builder, docId: string, raws: seq<Raw>, records: seq<ChunkRecord>)
    requires Carries(build, docId) && Tiles(build, raws, |raws|, records)
    ensures Distinct(Ids(records)) <==> DistinctNames(docId, raws)
  {
    forall j, k | 0 <= j < k < |raws|
      ensures Ids(records)[j] == Ids(records)[k] <==> LocalName(docId, raws[j]) == LocalName(docId, raws[k])
    {
      SameIdIffSameName(docId, raws[j], raws[k]);
    }
  }

  lemma SameIdIffSameName(docId: string, a: Raw, b: Raw)
    ensures IdOf(docId, a) == IdOf(docId, b) <==> LocalName(docId, a) == LocalName(docId, b)
  {
    IdIsLocalName(docId, a);
    IdIsLocalName(docId, b);
    SamePrefix(docId + ":", LocalName(docId, a), LocalName(docId, b));
  }

  lemma SamePrefix(prefix: string, a: string, b: string)
    ensures prefix + a == prefix + b <==> a == b
  {
    assert (prefix + a)[|prefix|..] == a && (prefix + b)[|prefix|..] == b;
  }

  /** A raw object is not named like a renumbered chunk. */
  ghost predicate NotRenumbered(docId: string, raw: Raw) {
    forall n: nat :: LocalName(docId, raw) != "cp" + Padded(n)
  }

  lemma NotRenumberedExact(docId: string, raw: Raw)
    ensures NotCpId(docId, IdOf(docId, raw)) <==> NotRenumbered(docId, raw)
  {
    IdIsLocalName(docId, raw);
    forall n: nat { CpIdSplit(docId, LocalName(docId, raw), n); }
  }

  lemma CpIdSplit(docId: string, name: string, n: nat)
    ensures docId + ":" + name == CpId(docId, n) <==> name == "cp" + Padded(n)
  {
    var number := Padded(n);
    assert ":cp" == ":" + "cp";
    assert docId + ":cp" + number == docId + ":" + ("cp" + number);
    SamePrefix(docId + ":", name, "cp" + number);
  }

  /** A raw object is not named like a section parent. */
  ghost predicate NotParentName(docId: string, raw: Raw) {
    forall n: nat :: LocalName(docId, raw) != "parent:" + Padded(n)
  }

  lemma NotParentNameExact(docId: string, raw: Raw)
    ensures KnowledgeMetadataStore.NotParentId(docId, IdOf(docId, raw)) <==> NotParentName(docId, raw)
  {
    IdIsLocalName(docId, raw);
    forall n: nat { ParentIdSplit(docId, LocalName(docId, raw), n); }
  }

  lemma ParentIdSplit(docId: string, name: string, n: nat)
    ensures docId + ":" + name == ParentId(docId, n) <==> name == "parent:" + Padded(n)
  {
    var number := Padded(n);
    assert ":parent:" == ":" + "parent:";
    assert docId + ":parent:" + number == docId + ":" + ("parent:" + number);
    SamePrefix(docId + ":", name, "parent:" + number);
  }

  /** A name like a parent's is not like a renumbered chunk's. */
  lemma ParentNameIsNotRenumbered(docId: string, raw: Raw, n: nat)
    requires LocalName(docId, raw) == "parent:" + Padded(n)
    ensures IdOf(docId, raw) == ParentId(docId, n) && NotRenumbered(docId, raw)
  {
    IdIsLocalName(docId, raw);
    ParentIdSplit(docId, LocalName(docId, raw), n);
    forall m: nat ensures IdOf(docId, raw) != CpId(docId, m) {
      KnowledgeMetadataStore.CpIsNotParent(docId, m, n);
    }
    NotRenumberedExact(docId, raw);
  }

  // ---------- from artifacts to stored chunks ----------

  /** Every chunk the policy makes of the built records spans its content. */
  lemma IngestedChunksSpan(p: Policy, build: Builder, raws: seq<Raw>, records: seq<ChunkRecord>)
    requires p.maxSize >= 1 && p.capBytes >= 4
    requires Places(build) && Tiles(build, raws, |raws|, records)
    ensures forall c :: c in Applied(p, records) ==> Spans(c)
  {
    ApplyBounds(p, records);
  }

  /** Artifacts whose objects have distinct names, none like a renumbered chunk or a
      section parent, are stored with their parents and listed back chunk for chunk. */
  lemma IngestedChunksSurvive(p: Policy, build: Builder, docId: string, raws: seq<Raw>, records: seq<ChunkRecord>)
    requires p.maxSize >= 1 && p.capBytes >= 4
    requires Carries(build, docId) && Tiles(build, raws, |raws|, records)
    requires DistinctNames(docId, raws)
    requires forall k :: 0 <= k < |raws| ==> NotRenumbered(docId, raws[k]) && NotParentName(docId, raws[k])
    ensures var stored := KnowledgeMetadataStore.Stored(Applied(p, records));
      KnowledgeMetadataStore.DictOf(stored) == stored
  {
    IdsDistinctIffNames(build, docId, raws, records);
    forall c | c in records
      ensures c.docId == docId
      ensures NotCpId(docId, c.chunkId) && KnowledgeMetadataStore.NotParentId(docId, c.chunkId)
    {
      var k :| 0 <= k < |records| && records[k] == c;
      NotRenumberedExact(docId, raws[k]);
      NotParentNameExact(docId, raws[k]);
    }
    KnowledgeMetadataStore.FreshChunksSurvive(p, docId, records);
  }

  /** With distinct names it is so exactly when no record that passes through unchanged
      has the id of a place renumbered, or of a parent. */
  lemma IngestedChunksSurviveExactly(p: Policy, build: Builder, docId: string, raws: seq<Raw>,
                                     records: seq<ChunkRecord>)
    requires p.maxSize >= 1 && p.capBytes >= 4
    requires Carries(build, docId) && Tiles(build, raws, |raws|, records)
    requires DistinctNames(docId, raws)
    ensures var once, ws := Applied(p, records), Cut3(p, records);
      var stored := KnowledgeMetadataStore.Stored(once);
      KnowledgeMetadataStore.DictOf(stored) == stored <==>
      && NoReuse(docId, ws)
      && KnowledgeMetadataStore.KeptNoParentId(docId, ws, |SectionParentsOf(once)|)
  {
    IdsDistinctIffNames(build, docId, raws, records);
    forall c | c in records ensures c.docId == docId {
      var k :| 0 <= k < |records| && records[k] == c;
    }
    KnowledgeMetadataStore.AppliedChunksSurvive(p, docId, records);
  }
}
