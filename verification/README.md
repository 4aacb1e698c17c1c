# Verification of the on-call assistant's core services

A Dafny model of the parts of the assistant whose correctness is easiest to get wrong, with proofs. `dafny verify dfyconfig.toml` checks everything. One module stands for one component; a service that updates fields is a class with those fields, a loop over growing lists is a method with that loop, and each is proved equal to a specification function about which the properties are then proved.

**Chunk boundaries.** `Segmentation` (greedy segmentation in general), `ChunkText` (sentence, line, character and byte cuts), `ChunkModels`, `ChunkMerge`, `ChunkPolicy`, `SectionParents`, with `ChunkPositions`, `ChunkFields` and `ArtifactFields` for what the results mean in places and fields, and `ArtifactBuilder` and `DocumentSplitter` in front and `KnowledgeMetadataStore` behind. Text is a sequence of Unicode scalar values; the byte length of a character is its UTF-8 length (section 3 of RFC 3629).

**Reviewed memory.** `MemoryModels`, `MemoryStore`, `MemoryCandidates`, `ConflictDetector`, `MemoryLifecycle`, `MemoryReview`, `MemoryAggregator`, and `MemoryRuns`, where every public operation is a step on one keyed table and an invariant is proved over every run from the empty store. `IntakeRules`, `ConflictRules`, `LifecycleRules` and `AggregationRules` say what one operation does to the table in terms of the fields of the records alone.

**Streaming.** `SseParser`: the dashboard's incremental frame parser, with `SseMessages` for what its events carry.

**Smaller protocols.** `EvidenceStore` (all-or-nothing evidence files, with `EvidencePaths` for their names and `EvidenceRecords` for what is written and removed), `HealthQueue` (a bounded work queue as interleaved steps), `ExtractionBreaker` (a circuit breaker), `HierarchicalRetrieval` (layered retrieval with a bounded over-fetch) and `RrfFusion` (rank fusion in exact arithmetic). `Wrappers`, `PyText`, `TotalOrders` and `Places` hold shared notions: options and exceptions, Python's `strip`, orders, sorting and slices, and the places of a list where something holds.

Exceptions are values (`Raised`), clocks are parameters, and digests, text normalisation, scoring and the language model's replies are functions the proofs know nothing about.

## Where the code differs from what is said about it

- `apply` is not idempotent in general: `ChunkPolicy.ApplyTwice` gives the exact condition on the merged chunks, `ChunkPolicy.ApplyTwiceWithinCap` reduces it to the remainders of cut sentences and the ends of over-long texts, and `ChunkPolicy.LongTextIsNotIdempotent` is an input that fails.
- The splitter's comment bounds merged pieces by twice the chunk size. The length is tested before joining, so the bound is the larger `DocumentSplitter.Limit`, and it is attained; `DocumentSplitter.DocumentedBoundExactly` says when the documented one holds.
- Deprecated is not a final status: records are written whole under deterministic ids. `MemoryRuns.DeprecatedStaysExactly` says which steps bring one back.
- Intake is not confined to one owner: the id of a chat candidate leaves out the owner (`MemoryCandidates.ChatIntakeReplacesOtherOwner`). `MemoryCandidates.OtherOwnersKept` says exactly when other owners' records are safe.
- Evidence creation is all or nothing only for a new id without surrounding blanks and with files of its own. A failed creation also forgets the older record of its id (`EvidenceStore.FailureKeepsMetadata`); the record is saved under the stripped id but deleted under the given one (`EvidenceStore.UntrimmedIdIsLeft`); and ids such as `a` and `./a` share their files (`EvidenceStore.DotIdBreaks`). `EvidenceStore.CreateKeepsIntegrity` and `EvidenceStore.RunsKeepIntegrity` are the exact conditions.
- The health-check queue does not always drain. When the write or submission after a reservation raises, the document stays pending for good and counts against the bound; `HealthQueue.QueueDrains` and `HealthQueue.AcceptedAgainExactly` say exactly what is left.
- Conflict application can raise. A blank memory id, which nothing refuses at intake (`MemoryRuns.BlankIdIsReachable`), makes the detection raise, and an id with surrounding blanks the marking (`MemoryLifecycle.UntrimmedIdRaises`); `MemoryLifecycle.ApplySucceedsExactly` is the exact condition. No builder makes such ids.
- Renumbered chunk ids can clash with an id carried over (`ChunkPolicy.ReusedCpIdClashes`); `ChunkPolicy.ApplyIdsDistinctExactly` says exactly when.
- A merged chunk's source reference keeps the pages of its first chunk, while the record and its metadata cover the group; `ArtifactFields.FinalAgreesExactly` says exactly when they agree.
- A chunk that carries the id of a section parent is overwritten by it in the metadata store (`KnowledgeMetadataStore.ParentIdClashes`); `KnowledgeMetadataStore.AppliedChunksSurvive` says exactly when everything stored is listed back.

## Model

| member | source | states |
|---|---|---|
| Segmentation.GreedyFewest | app/services/chunk_policy_service.py:106-120 | growing a segment until the next item does not fit gives the fewest segments of any segmentation into fitting ones, for every fitness inherited by sub-ranges |
| ChunkText.ByteCodepointHardCut | app/services/chunk_policy_service.py:283-303 | the character-by-character loop computes the greedy cut by bytes, for any cap |
| ChunkText.CutExact | app/services/chunk_policy_service.py:207-208 | a cut always keeps the text; its pieces are non-empty and within the limit exactly when every character alone is |
| ChunkText.CutFewest | app/services/chunk_policy_service.py:283-303 | no other partition of the text into pieces within the limit has fewer pieces |
| ChunkText.HardCutIsCut | app/services/chunk_policy_service.py:207-208 | slicing at every `size` characters is the greedy cut by characters |
| ChunkText.HardCutConserves | app/services/chunk_policy_service.py:207-208 | slicing keeps the text if and only if the step is positive or the text empty |
| ChunkText.SplitIntoSentences | app/services/chunk_policy_service.py:194-205 | the boundary loop computes the sentences |
| ChunkText.SentencesExact | app/services/chunk_policy_service.py:194-205 | sentences partition the text, none contains a terminator before its end, and all but the last end with one |
| ChunkText.SplitText | app/services/chunk_policy_service.py:171-192 | the buffering loop packs whole sentences and cuts only an over-long one |
| ChunkText.SplitTextCorrect | app/services/chunk_policy_service.py:171-192 | the text is kept, every piece is non-empty and within the limit, and a cut lies inside a sentence only if that sentence exceeds the limit |
| ChunkText.SplitTextFewest | app/services/chunk_policy_service.py:171-192 | when every sentence fits, no grouping of whole sentences within the limit has fewer pieces |
| ChunkText.ByteSafeSplit | app/services/chunk_policy_service.py:251-281 | the line loop packs whole lines by bytes and cuts only an over-long one |
| ChunkText.ByteSafeSplitCorrect | app/services/chunk_policy_service.py:251-281 | the text is kept for any cap, cuts fall inside a line only if that line exceeds the cap, and pieces are non-empty and within the cap exactly when every character is, so for every cap of four or more |
| ChunkText.ByteSafeSplitFewest | app/services/chunk_policy_service.py:251-281 | when every line fits the cap, no grouping of whole lines within the cap has fewer pieces |
| ChunkPositions.LinesEndExactly | app/services/chunk_policy_service.py:262-264 | the lines lie end to end, and one ends at a place exactly when a line end stands there that is not the first half of a carriage return and line feed, or the text ends |
| ChunkPositions.SentencesEndExactly | app/services/chunk_policy_service.py:194-205 | a sentence ends at a place exactly when a terminator stands there or the text ends |
| ChunkPositions.BytePiecesMeet | app/services/chunk_policy_service.py:251-281 | in terms of places in the text: two byte pieces meet at a line end, unless the place lies inside a line longer than the cap |
| ChunkPositions.TextPiecesMeet | app/services/chunk_policy_service.py:171-192 | two pieces of a split text meet after a terminator, unless the place lies inside a sentence longer than the limit |
| ChunkPositions.WidthIsLeast | app/services/chunk_policy_service.py:283-303 | the byte length of a character is the least whose payload bits hold it (section 3 of RFC 3629) |
| ChunkMerge.MergePass | app/services/chunk_policy_service.py:106-120 | the loop that rewrites the last merged chunk computes the greedy merge |
| ChunkMerge.MergePassGroups | app/services/chunk_policy_service.py:106-145 | the pass partitions its input into consecutive groups; a group of two or more is all text under one heading, joined by the separator and within the limit |
| ChunkMerge.FoldContent | app/services/chunk_policy_service.py:132-145 | what a joined chunk takes from its group: text, first chunk's identity, type, heading and start, an end that spans the text, and the changed mark exactly for two or more |
| ChunkMerge.FoldPages | app/services/chunk_policy_service.py:132-145 | a joined chunk has the earliest first page and the latest last page of its group |
| ChunkMerge.FoldFlags | app/services/chunk_policy_service.py:132-145 | a joined chunk carries exactly the union of its group's quality flags |
| ChunkFields.FoldFlagsSorted | app/services/chunk_policy_service.py:132-145 | in order, and each once |
| ChunkMerge.MergePassFewest | app/services/chunk_policy_service.py:106-130 | no partition into groups that may be joined has fewer groups |
| ChunkMerge.MergePassNothing | app/services/chunk_policy_service.py:106-130 | the pass changes nothing if and only if no two neighbours can be merged |
| ChunkMerge.MergePassFixpoint | app/services/chunk_policy_service.py:106-130 | running the pass on its own result changes nothing |
| ChunkPolicy.ResplitPass | app/services/chunk_policy_service.py:147-169 | the loop replaces each over-long text chunk by its pieces laid end to end |
| ChunkPolicy.AtomicHardcapPass | app/services/chunk_policy_service.py:210-249 | the loop replaces each chunk over the byte cap by its flagged pieces laid end to end |
| ChunkPolicy.Finalize | app/services/chunk_policy_service.py:305-334 | the loop renumbers all chunks and gives changed ones new identifiers |
| ChunkPolicy.Apply | app/services/chunk_policy_service.py:82-98 | the four passes in order compute the specification of `apply` |
| ChunkPolicy.ApplyConserves | app/services/chunk_policy_service.py:90-98 | for any cap the final contents concatenate to the merged contents |
| ChunkPolicy.ApplyBounds | app/services/chunk_policy_service.py:90-98 | final text chunks are within the character limit, all chunks within the byte cap, and chunks that span their content still do |
| ChunkText.PackShortJoint | app/services/chunk_policy_service.py:171-192 | two neighbouring pieces of a split text fit together within the limit only after the remainder of a sentence that was cut |
| ChunkPolicy.ApplyTwice | app/services/chunk_policy_service.py:82-98 | applying twice equals applying once, whole records included, if and only if, on the merged chunks, no two neighbouring pieces of a cut chunk can merge and no piece of a cut chunk can merge with the neighbour it meets |
| ChunkPolicy.ApplyTwiceWithinCap | app/services/chunk_policy_service.py:82-98 | when no resplit text exceeds the byte cap, that is so if and only if every remainder of a cut sentence is too long for the piece that follows and no over-long text meets a neighbour with pieces that could merge |
| ChunkPolicy.ApplyIdempotent | app/services/chunk_policy_service.py:82-98 | `apply` is idempotent on whole records when every input text fits the limit and no merged text exceeds the cap |
| ChunkPolicy.ApplyIdempotentForNarrowText | app/services/chunk_policy_service.py:65-80 | so it is for characters of at most three bytes and a cap of three bytes per character, as with the defaults |
| ChunkPolicy.LongTextIsNotIdempotent | app/services/chunk_policy_service.py:147-169 | a text over the limit can leave a tail that merges the next time |
| ChunkPolicy.ApplyIdsDistinctExactly | app/services/chunk_policy_service.py:305-334 | distinct input ids of one document give distinct output ids if and only if no chunk that passes through unchanged carries the id renumbering gives to the place of a changed one |
| ChunkPolicy.ApplyIdsDistinct | app/services/chunk_policy_service.py:305-334 | so they do when no input id looks renumbered |
| ChunkPolicy.ReusedCpIdClashes | app/services/chunk_policy_service.py:305-334 | without that condition two output chunks can share an id |
| ChunkModels.NumberedInjective | app/services/chunk_policy_service.py:305-334 | identifiers with a zero-padded number differ when the numbers differ, also beyond five digits |
| ChunkFields.PaddedExact | app/services/chunk_policy_service.py:305-334 | the padded number consists of at least five digits, denotes the number, and has no superfluous zero beyond five |
| ChunkFields.AppliedFields | app/services/chunk_policy_service.py:305-334 | final chunks are numbered from zero in order; a changed one is named after its number, any other keeps its name; reference and metadata repeat the record's own fields, and everything else is as before |
| ChunkFields.CapFields | app/services/chunk_policy_service.py:210-249 | exactly the pieces of a chunk over the byte cap carry the split flag besides the chunk's own |
| ChunkFields.AppliedDescent | app/services/chunk_policy_service.py:82-98 | every final chunk comes from one group of merged neighbours and has its document, heading, type, pages and flags; an unchanged one is alone in its group, with its text and name |
| SectionParents.BuildSectionParents | app/services/chunk_policy_service.py:336-361 | the grouping loop with its flush computes the parents |
| SectionParents.ParentsAreMaximalRuns | app/services/chunk_policy_service.py:336-417 | the parents are exactly the maximal runs of two or more consecutive text chunks with one non-empty heading path, in order, each listing the ids and joining the text of its run |
| SectionParents.LinkChildrenToParents | app/services/chunk_policy_service.py:419-446 | the dictionary loops give each chunk the last parent that lists it |
| SectionParents.ApplyWithParents | app/services/chunk_policy_service.py:86-104 | chunks and parents come from one application, linked to each other |
| SectionParents.LinksMatchLists | app/services/chunk_policy_service.py:419-446 | a parent lists exactly the chunks of its run, and a chunk points to it exactly when it lists the chunk, or when no parent does and the chunk pointed to that identifier before |
| ArtifactBuilder.Prepare | app/services/artifact_chunk_builder_service.py:29-74 | preparation succeeds exactly when there is no fatal error and every object has its required fields, and then yields one record per object in order, with all its fields and metadata, each starting where the one before ends |
| ArtifactFields.CompleteExact | app/services/artifact_chunk_builder_service.py:271-276 | an object has its required fields exactly when one of its two names and one of its two texts is not blank |
| ArtifactBuilder.TilesCover | app/services/artifact_chunk_builder_service.py:42-66 | records are numbered from zero, start at zero, span their content, and the distance between two starts is the length of the contents between |
| ArtifactBuilder.NormalizeTwice | app/services/artifact_chunk_builder_service.py:278-289 | normalising an identifier again, as a chunk or as a table, changes nothing |
| ArtifactBuilder.IdsDistinctIffNames | app/services/artifact_chunk_builder_service.py:278-289 | record ids are distinct if and only if the objects' names inside the document are, across chunks and tables |
| ArtifactBuilder.NotRenumberedExact | app/services/artifact_chunk_builder_service.py:278-289 | a record id looks like a renumbered chunk's exactly when the name inside the document does |
| ArtifactBuilder.IngestedChunksSpan | app/services/artifact_chunk_builder_service.py:42-66 | every chunk the policy makes of built records spans its content |
| ArtifactFields.IngestedFields | app/services/artifact_chunk_builder_service.py:76-243 | every ingested record says of its raw object what that says of itself, page keys and defaults included, and reference and metadata agree with the record |
| ArtifactFields.ParentFields | app/services/chunk_policy_service.py:363-417 | a section parent has its group's text, span, extreme pages, united flags and child ids, the first chunk's origin, and agrees with itself |
| ArtifactFields.FinalAgreesExactly | app/services/chunk_policy_service.py:132-145 | of records that agree with themselves, a final chunk does if and only if its pages are those of the first chunk of its group, which its reference keeps |
| ArtifactBuilder.NotParentNameExact | app/services/chunk_policy_service.py:363-372 | a record's identifier is not like a parent's exactly when its object is not named `parent:` and a padded number |
| ArtifactBuilder.ParentNameIsNotRenumbered | app/services/artifact_chunk_builder_service.py:42-74 | an object with such a name gets that parent's identifier and is not like a renumbered chunk |
| ArtifactBuilder.IngestedChunksSurvive | app/services/vector_index_service.py:218-241 | from artifacts with distinct names, none like a renumbered chunk or a section parent, through merging, cutting, linking and storing together with the parents: the listing returns chunks and parents as they were given |
| ArtifactBuilder.IngestedChunksSurviveExactly | app/services/vector_index_service.py:218-241 | with distinct names it is so if and only if no record that passes through unchanged has the identifier of a place renumbered, or of a parent made |
| DocumentSplitter.MergeSmallChunks | app/services/document_splitter_service.py:134-181 | the loop that extends documents in place computes the merge and returns only given documents |
| DocumentSplitter.MergedSizeBound | app/services/document_splitter_service.py:134-181 | with pieces of at most twice the chunk size, no merged piece exceeds the limit |
| DocumentSplitter.MergedSizeTight | app/services/document_splitter_service.py:134-181 | for all positive sizes the limit is attained and exceeds twice the chunk size |
| DocumentSplitter.DocumentedBoundExactly | app/services/document_splitter_service.py:134-181 | the documented bound of twice the chunk size holds for all pieces that meet it if and only if one of the two sizes is not positive, and then nothing is merged |
| DocumentSplitter.MergedGroups | app/services/document_splitter_service.py:134-190 | merging partitions the pieces into consecutive groups of one heading, only short ones after the first, and only inserts separators |
| DocumentSplitter.MergingStops | app/services/document_splitter_service.py:134-190 | a group grows only while its text is below twice the chunk size, and the next one starts with another heading, a long piece, or because the group is full |
| KnowledgeMetadataStore.Store.ReplaceChunks | app/services/knowledge_metadata_store.py:135-140 | the document's chunks become the dictionary of the given ones; other documents keep theirs |
| KnowledgeMetadataStore.DictOfExact | app/services/knowledge_metadata_store.py:135-140 | the stored chunks are, for each id, the last one given |
| KnowledgeMetadataStore.RoundTrip | app/services/knowledge_metadata_store.py:135-145 | storing and listing gives the same sequence back if and only if the ids are distinct, and otherwise fewer chunks |
| KnowledgeMetadataStore.StoredSurvives | app/services/vector_index_service.py:128-153 | chunks of one document, stored with the parents made for them, are listed back as given if and only if their ids are distinct and none is that of a parent |
| KnowledgeMetadataStore.AppliedChunksSurvive | app/services/vector_index_service.py:128-153 | for distinct ids of one document, what the policy makes and the caller stores, chunks and parents, is listed back as given if and only if no chunk that passes through unchanged carries the id renumbering gives to the place of a changed one, or that of a parent |
| KnowledgeMetadataStore.FreshChunksSurvive | app/services/vector_index_service.py:128-153 | so it is when no given id looks like a renumbered one or a parent's |
| KnowledgeMetadataStore.PlainTextChunksSurvive | app/services/vector_index_service.py:366-373 | so it is for plain text, whose chunks are named by their position |
| KnowledgeMetadataStore.ParentIdClashes | app/services/vector_index_service.py:128-153 | of two texts under one heading that stay apart, one with the id of their parent is overwritten by it and lost, for every limit, cap and text |
| KnowledgeMetadataStore.StoreThenList | app/services/knowledge_metadata_store.py:135-145 | storing chunks and listing the document gives them back if and only if their ids are distinct, whatever the document had before, and other documents keep theirs |
| KnowledgeMetadataStore.IndexThenList | app/services/vector_index_service.py:128-170 | indexing a document through policy, linking and storing, then listing it: for distinct ids of one document, chunks and parents come back if and only if no unchanged chunk carries an id given to another, and other documents keep theirs |
| SseParser.Parser.EmitFrame | static/enterprise-dashboard.js:59-80 | a frame emits the event of its joined data lines, or nothing without one |
| SseParser.Parser.FeedChunk | static/enterprise-dashboard.js:83-92 | a feed emits all complete frames of buffer and chunk and keeps the open rest |
| SseParser.Parser.FlushBuffer | static/enterprise-dashboard.js:93-98 | a flush emits a non-blank rest and empties the buffer, and leaves a blank one |
| SseParser.FeedTwo | static/enterprise-dashboard.js:83-92 | feeding two chunks, also cut inside a separator, is feeding their concatenation |
| SseParser.ChunkIndependence | static/enterprise-dashboard.js:83-92 | however a stream is cut, events and buffer are those of feeding it whole |
| SseParser.AnyTwoCutsAgree | static/enterprise-dashboard.js:82-100 | two ways of cutting one stream give the same events and buffer, also after the flush |
| SseParser.EncodedStreamIsDelivered | static/enterprise-dashboard.js:56-100 | messages encoded as data lines with either line end, cut anywhere, arrive one event each, in order, with an empty buffer |
| SseParser.LastFrameIsFlushed | static/enterprise-dashboard.js:82-98 | a last frame without its blank line waits in the buffer, however the stream is cut, and the flush delivers it |
| SseParser.BlankRestIsLeft | static/enterprise-dashboard.js:93-98 | spaces after the last frame stay in the buffer and emit nothing |
| SseMessages.DeliveredExactly | static/enterprise-dashboard.js:59-80 | one event for each message, in order: the end mark alone ends the stream, any other text is a payload whose lines are the message's, each from its first character that is no space |
| SseMessages.DataLinesExact | static/enterprise-dashboard.js:59-70 | a frame's data come from exactly the lines that begin with the data field, in order |
| MemoryStore.ListsUnique | app/services/memory_store.py:123-151 | a listing is determined by the table and the filter: rows in order of time stamp and id |
| MemoryStore.Store.Upsert | app/services/memory_store.py:81-111 | an upsert replaces the whole row under its id and stamps it |
| MemoryStore.Store.ListMemories | app/services/memory_store.py:123-151 | lists exactly the rows that match owner, namespace, type and status, each once, in order |
| MemoryStore.Store.RecordAccess | app/services/memory_store.py:159-171 | counts one access and keeps the time stamp |
| MemoryModels.BuildReview | app/models/memory.py:98-116 | a review is built exactly when reviewer, note and source are not blank, and then is a good one |
| MemoryModels.ReplayAppend | app/services/memory_lifecycle_service.py:261-282 | appending a legal transition to a log that leads to its start leads to its end |
| LifecycleRules.ReplayExact | app/services/memory_lifecycle_service.py:261-282 | a log leads to a status exactly when it starts from active, every event is one of the four moves and starts where the one before ended, and the last ends there |
| MemoryCandidates.MemoryCandidateService.StoreCandidateWithAction | app/services/memory_candidate_service.py:213-240 | intake against the owner's other records of the type: conflict first, then duplicate, else a new candidate |
| MemoryCandidates.DuplicatesShareConflictKey | app/services/memory_candidate_service.py:32-103 | equal duplicate keys imply equal conflict keys, one owner and one type |
| IntakeRules.DuplicatesExact | app/services/memory_candidate_service.py:32-78 | two records share a duplicate key exactly when, payload kind by payload kind, their normalised fields agree, lists as multisets |
| IntakeRules.ContradictionExact | app/services/memory_candidate_service.py:103-136 | two records conflict exactly when an alert pattern has another root cause or fix, a plan of the alert other stop conditions or tools and other steps, a scope another preference, or an unexpired context another value |
| IntakeRules.IntakeExactly | app/services/memory_candidate_service.py:207-240 | in terms of the payloads: intake of an atom beside a live one raises; a record is stored as a conflict that names exactly the live records it contradicts, in row order, if there are any; else the first live record that says the same is reported and nothing written; else a candidate is stored |
| MemoryCandidates.NewKeyIsDistinct | app/services/memory_candidate_service.py:213-240 | a record with no duplicate among its rivals has a key no live record has |
| MemoryCandidates.StoreCandidateKeepsDistinct | app/services/memory_candidate_service.py:213-240 | intake keeps the duplicate keys of live records of one owner and type distinct |
| MemoryCandidates.IntakeWritesExactly | app/services/memory_candidate_service.py:213-240 | intake writes, a candidate or a conflict under the record's own id and owner, exactly when an L1 atom has no rival or another record contradicts a rival or shares no rival's duplicate key; otherwise the table is unchanged |
| MemoryCandidates.OtherOwnersKept | app/services/memory_candidate_service.py:213-240 | intake leaves every other owner's record unchanged if and only if the id is new, or already its owner's, or intake writes nothing |
| MemoryCandidates.ChatIntakeReplacesOtherOwner | app/services/memory_candidate_service.py:242-290 | a chat candidate of one owner replaces another owner's record of the same session and summary |
| IntakeRules.ChatCandidateFields | app/services/memory_candidate_service.py:242-290 | a chat candidate is named after session and summary, belongs to the owner, and carries the summary, its session and its origin |
| ConflictDetector.VerdictsFade | app/services/conflict_detector_service.py:248-256 | a verdict seen later was there earlier: evidence only expires |
| ConflictRules.VerdictExact | app/services/conflict_detector_service.py:96-246 | the verdict in terms of the fields of atom and record: a doubt is a possible conflict, a refutation a candidate for supersession, and there is never both |
| MemoryLifecycle.MemoryLifecycleService.MarkStaleSuspect | app/services/memory_lifecycle_service.py:68-110 | marks an active record with one event that carries the conflict's details and counts it, or raises and changes nothing |
| MemoryLifecycle.MemoryLifecycleService.Restore | app/services/memory_lifecycle_service.py:112-154 | restores a stale record under an approving review with one event that carries the decision as given, or raises and changes nothing |
| MemoryLifecycle.MemoryLifecycleService.SupersedeRecord | app/services/memory_lifecycle_service.py:171-215 | supersedes an active or stale record by a named successor with one event that carries the decision and the successor, or raises and changes nothing |
| MemoryLifecycle.DetectConflicts | app/services/conflict_detector_service.py:84-94 | the detection loop raises exactly when one of the owner's active records has a blank id, with or without a conflict, and otherwise returns the sorted findings |
| MemoryLifecycle.MemoryLifecycleService.ApplyConflictsForAtom | app/services/memory_lifecycle_service.py:46-66 | marks the findings in order; a failure while marking stops, is counted once and keeps what was marked, a failure of the detection is not counted |
| MemoryLifecycle.DetectedExact | app/services/conflict_detector_service.py:84-94 | the findings are exactly the stored records with a verdict, under their stripped ids |
| MemoryLifecycle.MarkAllSucceeds | app/services/memory_lifecycle_service.py:50-66 | marking a list of findings succeeds exactly when they name distinct active records |
| MemoryLifecycle.ApplySucceedsExactly | app/services/memory_lifecycle_service.py:46-110 | conflict application does not raise if and only if no active record of the owner has a blank id and the stripped ids of the conflicting records are distinct and each names an active record; with a blank id nothing is written |
| MemoryLifecycle.ApplyMarksExactly | app/services/memory_lifecycle_service.py:46-110 | it succeeds and turns exactly the owner's conflicting active records into stale suspects with one new event each, all others identical, if and only if no active record of the owner has a blank id and the conflicting ids are trimmed |
| MemoryLifecycle.SupersessionFlagged | app/services/conflict_detector_service.py:96-195 | application flags a record for supersession exactly when it is active, of the atom's owner, the evidence current, and the atom names it or, negative and in scope, denies its root cause or fix |
| ConflictRules.ApplicationFlags | app/services/conflict_detector_service.py:96-270 | after application exactly the doubted records are stale suspects flagged as possible conflicts: active, the owner's, in scope, not named, with current evidence and another root cause, another fix, a denied stop condition or a changed configuration; exactly the refuted ones are flagged for supersession; all others are as before |
| ConflictRules.FindingsInOrder | app/services/conflict_detector_service.py:84-94 | findings come in the order of their ids, by the first different character |
| MemoryLifecycle.ApplyConflictsAgain | app/services/memory_lifecycle_service.py:46-66 | under that condition applying the same atom again, then or later, changes nothing |
| MemoryLifecycle.UntrimmedIdRaises | app/models/memory_conflict.py:37-42 | a lone active record with a blank id makes the detection raise, and one with another id makes marking raise exactly when it conflicts and the id has surrounding blanks |
| MemoryReview.MemoryReviewService.Approve | app/services/memory_review_service.py:80-109 | makes a candidate active under an approving review unless it is a summary, or raises and changes nothing |
| MemoryReview.MemoryReviewService.Reject | app/services/memory_review_service.py:111-135 | deprecates a candidate or conflict under a rejecting review, or raises and changes nothing |
| MemoryReview.MemoryReviewService.OwnerDeprecationRecords | app/services/memory_review_service.py:188-198 | five listings by status, merged and sorted, are the owner's records that are not deprecated, in row order |
| MemoryReview.MemoryReviewService.DeprecateOwnerMemories | app/services/memory_review_service.py:49-78 | the update loop deprecates the planned records one after the other |
| MemoryReview.DeprecationFollowsPlan | app/services/memory_review_service.py:37-78 | owner deprecation changes exactly the previewed records, each under one review that records its previous status, returns them in order, leaves all others identical, and a second call changes nothing |
| MemoryReview.BlankReviewRetiresNothing | app/services/memory_review_service.py:49-78 | a blank review text retires none, so deprecation is all or nothing |
| LifecycleRules.ApprovalExact | app/services/memory_review_service.py:80-109 | approval succeeds exactly for a signed decision on a candidate that is no summary, and changes its status, review, deadline and time stamp only |
| LifecycleRules.RejectionExact | app/services/memory_review_service.py:111-135 | rejection succeeds exactly for a signed decision on a candidate or conflict, and deprecates it |
| LifecycleRules.OwnerDeprecationExact | app/services/memory_review_service.py:49-78 | owner deprecation changes exactly the owner's records not yet deprecated, each under a review of its own status |
| LifecycleRules.RestorationExact | app/services/memory_lifecycle_service.py:112-154 | restoring succeeds exactly for a signed decision on a stale suspect; it writes two evidence keys and one event and keeps all other evidence |
| LifecycleRules.SupersedingExact | app/services/memory_lifecycle_service.py:171-215 | superseding succeeds exactly for a signed decision on an active record or stale suspect with a successor that is not blank; it writes two evidence keys and one event and keeps all other evidence |
| MemoryAggregator.MemoryAggregatorService.AggregateFromAtomIds | app/services/memory_aggregator_service.py:56-180 | one aggregation has one outcome, counted once unless building the scenario raises because every atom id is blank, counts each requested id that names no record of the owner once, and stores at most the scenario |
| MemoryAggregator.MemoryAggregatorService.DedupeByRequestedOrder | app/services/memory_aggregator_service.py:211-218 | ordering loaded atoms by request, without repeats, is what loading already gave |
| MemoryAggregator.AggregationIgnoresOrder | app/services/memory_aggregator_service.py:90-166 | any permutation or repetition of the same atom ids has the same outcome and table |
| MemoryAggregator.SecondAggregationIsDuplicate | app/services/memory_aggregator_service.py:140-166 | after a scenario was added, the same ids in any order are reported as its duplicate and change nothing if and only if it was stored over none of its own atoms |
| AggregationRules.EnoughExactly | app/services/memory_aggregator_service.py:90-131 | a scenario is made exactly when enough requested ids name records of the owner, enough of them atoms of a stable status, and no two of these differ in a service, alert or environment they give |
| AggregationRules.AggregationExactly | app/services/memory_aggregator_service.py:90-180 | otherwise skipped; refused when all atom ids are blank; else the scenario lists the atoms by kind, age and id under a key that says what they agree on, and is added unless a live record says the same, the first of which is then reported |
| MemoryRuns.StepKeepsInvariant | app/services/memory_lifecycle_service.py:68-215 | every step of every service keeps the invariant |
| MemoryRuns.Run | app/services/memory_review_service.py:37-135 | in every reachable store each log is a legal path from active that explains the status, active and stale records carry a good approval and are no summaries, retired ones the review that retired them, and live duplicate keys are distinct |
| MemoryRuns.IntakeNeedsNoLog | app/services/memory_candidate_service.py:207-240 | intake keeps the invariant if and only if it writes nothing or the record brings no log |
| MemoryRuns.AtomIsStored | app/services/memory_extractor_service.py:377-408 | an extracted atom is stored whole as a candidate under its own id, whatever was there |
| MemoryRuns.OperatorsSign | app/services/memory_review_service.py:37-135 | every record that an operator's step changes, of any of the five kinds, has the status of that step and a review with its decision, reviewer, note and source and the record's own previous status |
| MemoryRuns.DeprecatedStaysExactly | app/services/memory_store.py:81-111 | in any one step a deprecated record stays deprecated unless, and comes back exactly when, the step is an intake under its id that writes, an extracted atom stored under its id, or the aggregation of a scenario under its id that no rival duplicates |
| MemoryRuns.RunIsGiven | app/services/memory_extractor_service.py:377-408 | ids that are not blank and without surrounding blanks at intake stay so in every reachable store |
| MemoryRuns.ReachableConflictsApply | app/services/memory_lifecycle_service.py:46-110 | on every reachable store conflict application succeeds and marks exactly the conflicting records if and only if no active record of the owner has a blank id and the conflicting ids are trimmed; this holds when every id was given at intake, and then a repeat has no effect |
| MemoryRuns.BlankIdIsReachable | app/services/conflict_detector_service.py:293-315 | intake and approval of a record with an empty id reach a store on which detection raises for every atom of its owner |
| EvidencePaths.PathsInjective | app/services/memory_evidence_store.py:373-397 | joining names to the refs directory, with empty and dot segments dropped, two dots leading back and an absolute name replacing the directory, the final and temporary files of two ids and ref types coincide if and only if the ids have the same place, and type and kind agree |
| EvidencePaths.PlainPlace | app/services/memory_evidence_store.py:373-397 | an id without a slash has a place of its own: the directory and the id itself |
| EvidencePaths.DotSharesPlace | app/services/memory_evidence_store.py:373-397 | the ids `a` and `./a` share their files, for every `a` without a slash |
| EvidencePaths.BackSharesPlace | app/services/memory_evidence_store.py:373-397 | so do `a` and the id that leaves the refs directory by two dots and enters it again |
| EvidenceStore.JsonlIsSeparate | app/services/memory_evidence_store.py:373-397 | two files of any evidence share a path exactly for the same place, type and kind |
| EvidenceStore.MemoryEvidenceStore.CreateAiopsEvidence | app/services/memory_evidence_store.py:160-289 | for every id, creation with an exception at any step ends in the closed form: all files in place with the record under the stripped id, or every prepared file and the record under the given id removed |
| EvidenceStore.MemoryEvidenceStore.Rollback | app/services/memory_evidence_store.py:282-289 | the handler removes the metadata under the given id and every prepared file |
| EvidenceStore.MemoryEvidenceStore.CheckIntegrity | app/services/memory_evidence_store.py:291-327 | the check passes exactly when the record exists and every ref file exists with its digest and size |
| EvidenceStore.MemoryEvidenceStore.CleanupExpiredEvidence | app/services/memory_evidence_store.py:329-371 | removes exactly the owner's records older than the cutoff with their files, or nothing on a dry run; it raises exactly when one of these removals does, and then the records before are removed and the first files of the one it stopped at |
| EvidenceStore.CreatedIsIntact | app/services/memory_evidence_store.py:160-327 | after a successful creation the integrity check passes under the stripped id, and under the given one, if new, exactly when it is stripped |
| EvidenceRecords.CreationWrites | app/services/memory_evidence_store.py:160-289 | without a fault creation succeeds exactly when no text is blank, an empty id being generated; it saves one record with the request's stripped texts and one ref for each payload given, writes these files and no other |
| EvidenceStore.FailureRestores | app/services/memory_evidence_store.py:160-289 | a failed creation leaves metadata and files as they were, but for a temporary file of the ref being prepared, if and only if the metadata survives and none of the prepared files existed |
| EvidenceStore.FailureKeepsMetadata | app/services/memory_evidence_store.py:282-289 | a failed creation keeps the metadata if and only if the given id had no record and, when a record was saved under another id before the failure, the same record was there already |
| EvidenceStore.SuccessKeepsIntegrity | app/services/memory_evidence_store.py:160-289 | a successful creation leaves every record intact if and only if it writes what other records at its place noted, digest and size |
| EvidenceStore.FailureKeepsIntegrity | app/services/memory_evidence_store.py:160-289 | a failed creation leaves every remaining record intact if and only if nothing was prepared, or no other record lies at the place of the id and a record just saved has the given id |
| EvidenceStore.CreateKeepsIntegrity | app/services/memory_evidence_store.py:160-289 | every record stays intact whatever happens to a creation if and only if its id carries no surrounding blanks and no other record lies at its place |
| EvidenceStore.UntrimmedIdIsLeft | app/models/memory_evidence.py:73-78 | the id ` a` is saved as `a` and deleted as ` a`: when moving the first file fails, the record stays without its files |
| EvidenceStore.DotIdBreaks | app/services/memory_evidence_store.py:282-289 | a failed creation of `./a` breaks the stored `a` |
| EvidenceStore.CleanupKeepsIntegrity | app/services/memory_evidence_store.py:329-371 | cleaning up some records keeps the others intact if and only if none of them shares its place with a removed one |
| EvidenceRecords.CleanupExactly | app/services/memory_evidence_store.py:329-371 | cleanup keeps exactly the records of other owners and those at or after the cutoff, and exactly the files to which no removed record refers |
| EvidenceStore.StoppedKeepsIntegrity | app/services/memory_evidence_store.py:357-362 | a cleanup that stops leaves every remaining record intact if and only if no file of the record it stopped at is removed yet and none shares its place with a removed one |
| EvidenceStore.CleanupResumes | app/services/memory_evidence_store.py:329-371 | cleaning up again, then or later, ends as if the first cleanup had not stopped |
| EvidenceStore.RunsKeepIntegrity | app/services/memory_evidence_store.py:160-371 | every record is intact after every run of creations with the given ids, failing anywhere, and cleanups that do not stop, if and only if the ids that are not blank carry no surrounding blanks and have places of their own |
| EvidenceStore.PlainRunsKeepIntegrity | app/services/memory_evidence_store.py:160-371 | so it is for ids without slashes and surrounding blanks, such as generated ones |
| HealthQueue.DocumentHealthCheckQueue.EnqueueLocked | app/services/document_health_check_service.py:428-442 | the region under the lock reserves a document unless the queue is full or holds it |
| HealthQueue.DocumentHealthCheckQueue.HandOverTask | app/services/document_health_check_service.py:444-455 | handing a reserved document to the pool, or failing to, keeps the invariant and changes nothing but its task's phase |
| HealthQueue.DocumentHealthCheckQueue.RunStarts | app/services/document_health_check_service.py:457-460 | a worker moves its document from pending to running |
| HealthQueue.DocumentHealthCheckQueue.RunFinishes | app/services/document_health_check_service.py:478-480 | a worker releases its document whatever the check did |
| HealthQueue.StepKeepsInvariant | app/services/document_health_check_service.py:428-480 | every interleaved step keeps the queue's invariant |
| HealthQueue.RunsKeepInvariant | app/services/document_health_check_service.py:428-480 | after any interleaving the size bound holds, pending and running are disjoint, and a document is held exactly when it has a task, of which it has at most one |
| HealthQueue.Progress | app/services/document_health_check_service.py:444-480 | every step but an enqueue lowers the remaining work by one, a failing hand-over by all three steps of its task |
| HealthQueue.StepLoses | app/services/document_health_check_service.py:444-455 | exactly a failing hand-over loses a document, its own, and no step finds a lost one again |
| HealthQueue.NeverStuck | app/services/document_health_check_service.py:444-480 | a step that neither enqueues nor fails is possible if and only if a document is held that is not lost |
| HealthQueue.QueueDrains | app/services/document_health_check_service.py:428-480 | without enqueues every run is bounded, and one that cannot go on leaves nothing running and exactly the lost documents pending |
| HealthQueue.LostForever | app/services/document_health_check_service.py:428-480 | after any run, enqueues included, every lost document is still lost, and there is one more for each failure |
| HealthQueue.AcceptedAgainExactly | app/services/document_health_check_service.py:428-455 | some run leads to a state that accepts a document if and only if it is not lost and fewer documents are lost than the queue may hold |
| ExtractionBreaker.MemoryExtractorService.ExtractAtomsFromEvidence | app/services/memory_extractor_service.py:105-264 | one call follows the specification: counters, outcome, latch and number of chain invocations |
| ExtractionBreaker.MemoryExtractorService.ShouldPause | app/services/memory_extractor_service.py:439-453 | pauses exactly when paused before or the failure rate exceeds the threshold with enough attempts |
| ExtractionBreaker.LastAttemptBound | app/services/memory_extractor_service.py:160-215 | the retry loop ends at the first reply that is not a transient failure, or at the last attempt allowed |
| ExtractionBreaker.InvokedOnlyWhenClosed | app/services/memory_extractor_service.py:105-264 | the chain is invoked only with the breaker closed, at most the retry count plus one times, and only transient failures are retried |
| ExtractionBreaker.RunsAreAccounted | app/services/memory_extractor_service.py:105-264 | over a run every attempt that returns has one outcome, and attempts are the sum of outcomes and raises |
| ExtractionBreaker.PauseIsALatch | app/services/memory_extractor_service.py:439-464 | once paused, a run stays paused and never invokes the chain again |
| ExtractionBreaker.OpensExactly | app/services/memory_extractor_service.py:439-469 | a call leaves the breaker open if and only if it was open, or the rate is over the threshold when the chain was about to be used or a failure was counted |
| ExtractionBreaker.OpensByCounts | app/services/memory_extractor_service.py:439-469 | in numbers: a call leaves the breaker open exactly when it was open, or the evidence was usable and the failures so far, or with those the call added, exceed the threshold's share of enough attempts |
| HierarchicalRetrieval.HierarchicalRetrievalService.RetrieveHierarchical | app/services/hierarchical_retrieval_service.py:119-229 | raises exactly for a blank query, a non-positive limit or a blank owner that reaches the legacy query; otherwise returns the layers, counts them and records one access per legacy hit |
| HierarchicalRetrieval.HierarchicalRetrievalService.RetrieveLayer | app/services/hierarchical_retrieval_service.py:234-258 | returns the first hits of the layer's ranking |
| HierarchicalRetrieval.HierarchicalRetrievalService.KeepUncovered | app/services/hierarchical_retrieval_service.py:157-169 | the loop keeps the first uncovered hits up to the limit |
| HierarchicalRetrieval.RankingExact | app/services/hierarchical_retrieval_service.py:234-258 | a ranking holds every matching record of the layer once, by score, confidence and time descending, then id |
| HierarchicalRetrieval.OverFetch | app/services/hierarchical_retrieval_service.py:157-169 | fetching the limit plus the number of covered ids, dropping covered hits and keeping the limit equals filtering the whole ranking first |
| HierarchicalRetrieval.LayersAreBest | app/services/hierarchical_retrieval_service.py:148-186 | each layer returns its best hits, the atoms the best outside the covered ids: every other one ranks after them and none is left out while there is room |
| HierarchicalRetrieval.ScenariosInOrder | app/services/hierarchical_retrieval_service.py:231-258 | in numbers: every returned scenario has at least the score of those after it and of every matching one left out; at equal score at least the confidence, then at least the time stamp, then the smaller id |
| HierarchicalRetrieval.AtomsInOrder | app/services/hierarchical_retrieval_service.py:148-172 | so have the returned atoms, among those that no returned scenario lists |
| HierarchicalRetrieval.LegacyInOrder | app/services/memory_retrieval_service.py:144-175 | the returned legacy memories have at least the score of all others; at equal score the older comes first, then the smaller id |
| HierarchicalRetrieval.FallbackExact | app/services/hierarchical_retrieval_service.py:276-282 | retrieval falls back to atoms exactly when there are too few scenarios or none is confident enough |
| HierarchicalRetrieval.NoCoveredAtom | app/services/hierarchical_retrieval_service.py:330-336 | no returned atom is covered by a returned scenario |
| HierarchicalRetrieval.LegacyFallbackExact | app/services/hierarchical_retrieval_service.py:171-174 | once fallen back to atoms, retrieval falls back to legacy memory exactly when the uncovered matches up to the limit are fewer than the minimum |
| HierarchicalRetrieval.LayersAreDistinct | app/services/hierarchical_retrieval_service.py:119-229 | ids are distinct across the three layers and every hit is an active, matching record of the owner |
| HierarchicalRetrieval.RetrievalCountsAccesses | app/services/memory_retrieval_service.py:144-196 | a retrieval counts one access for each returned legacy memory and changes nothing else |
| RrfFusion.Fuse | app/services/hybrid_search_service.py:23-56 | the dictionary loops, the sort and the slice return the top of the unique ranking by score and id, each entry once with the first hit seen for it and its place in every source |
| RrfFusion.PlacesExact | app/services/hybrid_search_service.py:32-38 | the place noted for a source is that of a hit for the id in the last list of that source that found it |
| RrfFusion.ScoreExact | app/services/hybrid_search_service.py:32-36 | a fused score is the sum, over all places where the id stands, of the reciprocal of the constant plus the rank |
| RrfFusion.FirstHitExact | app/services/hybrid_search_service.py:32-37 | the representative is the hit at the first place of the first list that has the id |
| RrfFusion.RankingUnique | app/services/hybrid_search_service.py:40-56 | there is one ranking for the same ids and scores |
| RrfFusion.FusionInOrder | app/services/hybrid_search_service.py:40-56 | in numbers: as many results as the slice keeps, each with its score, the higher score first and at equal score the smaller id, and every id left out comes after them |
| RrfFusion.ScorePermutation | app/services/hybrid_search_service.py:28-38 | fused scores do not depend on the order of the lists |
| RrfFusion.RankingIgnoresListOrder | app/services/hybrid_search_service.py:23-56 | nor does the ranking |
| RrfFusion.ScoreRange | app/services/hybrid_search_service.py:28-38 | with distinct ids inside each list a score is at most the number of lists over the rank constant plus one, and positive exactly for ids that occur |
| RrfFusion.Dominance | app/services/hybrid_search_service.py:28-38 | a hit ranked at least as well in every list has at least the score, and more if it is strictly better in one |
| RrfFusion.DominantComesFirst | app/services/hybrid_search_service.py:40-56 | and then precedes the other |
| RrfFusion.IdenticalListsKeepOrder | app/services/hybrid_search_service.py:23-56 | fusing copies of one list keeps its order |

## Left out

- ChunkPolicy.Apply: a character limit of zero makes Python's `range` raise and a negative one drops text, so the passes require a limit of at least one; `ChunkText.HardCutConserves` says what goes wrong below it.
- ChunkText.ByteSafeSplit: characters are scalar values, so lone surrogates, on which Python's UTF-8 encoder raises, are not modelled.
- DocumentSplitter.MergeSmallChunks: the given documents are distinct objects, as the splitter makes them; metadata other than the headings is not modelled.
- ArtifactBuilder.Prepare: reading and parsing the JSON files is replaced by their lists; values the builder only passes on are kept as JSON text, and a value of a wrong type that the record model refuses counts as absent.
- KnowledgeMetadataStore.Store.ReplaceChunks: the lock and the JSON file behind the dictionaries.
- KnowledgeMetadataStore.IndexThenList: the vector rows and document statuses written beside the chunks.
- SseParser.Parser.EmitFrame: parsing the event's JSON is a function of its text and is not modelled; a character stands for a UTF-16 code unit, and cuts fall between code units.
- MemoryRuns.Run: `update_status` and a raw upsert are not steps; each operation uses one time stamp, while the code reads the clock more than once; an atom's own texts are not blank, since no atom with blank ones can be made.
- MemoryRuns.IntakeNeedsNoLog: evidence is its log, its conflict list and the other keys as text.
- MemoryStore.Store.ListMemories: SQLite and the JSON rows are a map.
- MemoryLifecycle.SupersessionFlagged: text normalisation and the wording of a reason are arbitrary functions and the marker lists are parameters; the detector's counters are left out.
- MemoryCandidates.DuplicatesShareConflictKey: digests are an arbitrary function; nothing about the state machine needs them injective.
- MemoryAggregator.MemoryAggregatorService.AggregateFromAtomIds: the rendered scenario text is an arbitrary function, and aggregation by scope is left out, being the same with a listing in place of the ids.
- EvidenceStore.MemoryEvidenceStore.CreateAiopsEvidence: the exception handler itself does not fail, and a file is its text.
- EvidenceStore.MemoryEvidenceStore.CleanupExpiredEvidence: the order of the records, which is that of the listing, is left open.
- EvidenceStore.RunsKeepIntegrity: cleanups in a run do not stop half-way; `EvidenceStore.StoppedKeepsIntegrity` and `EvidenceStore.CleanupResumes` say what one that does leaves.
- EvidencePaths.PathsInjective: paths are POSIX, names are compared exactly, and no symbolic links lie under the directories; a folder that is missing makes the preparation fail, which is one of the faults.
- HealthQueue.DocumentHealthCheckQueue.EnqueueLocked: what is written to the health store, and running inline on the caller's thread.
- HealthQueue.QueueDrains: a bound on every run and no deadlock; that an enabled step is eventually taken is the scheduler's part.
- ExtractionBreaker.RunsAreAccounted: the prompt, the rule expressions and storing the atoms are inputs; a rule extraction that raises is counted apart.
- HierarchicalRetrieval.HierarchicalRetrievalService.RetrieveHierarchical: scores, confidences and the stale penalty are functions of the record, query and time; traces and latency are left out.
- RrfFusion.Fuse: exact reals instead of floating point; the other metadata of a result is its representative's.
- The diagnostics a health check performs, stale-document reconciliation, routing of knowledge bases and session ownership would only add easy members.
- Web routes, authentication, vector and sparse search, reranking, language model calls and the planner loop are not modelled.
