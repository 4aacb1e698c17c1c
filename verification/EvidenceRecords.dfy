/** What a creation and a cleanup leave in the evidence store, record by record and
    file by file. */
module EvidenceRecords {
  import opened Wrappers
  import opened PyText
  import opened EvidencePaths
  import opened EvidenceStore

  // ---------- creation ----------

  /** The text that the request gives for a kind of payload. */
  ghost function TextFor(q: Request, t: RefType): Option<string> {
    match t
    case FinalResponse => Some(q.finalResponse)
    case PastSteps => Some(q.pastSteps)
    case KeyEvents => q.keyEvents
    case ToolResults => q.toolResults
    case MemoryObservation => q.memoryObservation
  }

  /** The payloads are exactly the texts given. */
  ghost predicate Lists(q: Request, ps: seq<Payload>) {
    forall p :: p in ps <==> TextFor(q, p.refType) == Some(p.text)
  }

  lemma PayloadsExact(q: Request)
    ensures Lists(q, Payloads(q))
  {
    forall p ensures p in Payloads(q) <==> TextFor(q, p.refType) == Some(p.text) {
      var a := [Payload(FinalResponse, q.finalResponse), Payload(PastSteps, q.pastSteps)];
      var b, c := Optional(KeyEvents, q.keyEvents), Optional(ToolResults, q.toolResults);
      assert p in Payloads(q) <==> p in a || p in b || p in c || p in Optional(MemoryObservation, q.memoryObservation);
    }
  }

  /** A ref describes a text: its place, its digest and its length. */
  ghost predicate Describes(e: Setup, id: string, r: Ref, text: string) {
    r.path == e.final(id, r.refType) && r.sha == e.digest(text) && r.size == |text|
  }

  /** The record of a request: its stripped texts, the id as given, and one ref for
      each text given. */
  ghost predicate RecordFor(e: Setup, q: Request, id: string, ev: Evidence) {
    && ev.evidenceId == Strip(id) && ev.ownerId == Strip(q.ownerId) && ev.sessionId == Strip(q.sessionId)
    && ev.query == Strip(q.query) && ev.given == id && ev.createdAt == q.createdAt
    && (forall i, j :: 0 <= i < j < |ev.refs| ==> ev.refs[i].refType != ev.refs[j].refType)
    && (forall t :: TextFor(q, t).Some? <==> exists r :: r in ev.refs && r.refType == t)
    && (forall r :: r in ev.refs ==> TextFor(q, r.refType).Some? && Describes(e, id, r, TextFor(q, r.refType).value))
  }

  lemma EvidenceForExact(e: Setup, q: Request)
    ensures RecordFor(e, q, q.id, EvidenceFor(e, q))
  {
    var ps, refs := Payloads(q), EvidenceFor(e, q).refs;
    PayloadsExact(q);
    PayloadsDistinct(q);
    forall t ensures TextFor(q, t).Some? <==> exists r :: r in refs && r.refType == t {
      if TextFor(q, t).Some? {
        var k :| 0 <= k < |ps| && ps[k] == Payload(t, TextFor(q, t).value);
        assert refs[k] in refs && refs[k].refType == t;
      }
      if r :| r in refs && r.refType == t {
        var k :| 0 <= k < |refs| && refs[k] == r;
        assert ps[k] in ps;
      }
    }
    forall r | r in refs
      ensures TextFor(q, r.refType).Some? && Describes(e, q.id, r, TextFor(q, r.refType).value)
    {
      var k :| 0 <= k < |refs| && refs[k] == r;
      assert ps[k] in ps;
    }
  }

  /** A file that creation for the request writes, under its final or its temporary name. */
  ghost predicate OwnFile(e: Setup, q: Request, id: string, p: Path) {
    exists t :: TextFor(q, t).Some? && (p == e.final(id, t) || p == e.temp(id, t))
  }

  ghost predicate Written(e: Setup, q: Request, id: string, after: Files, t: RefType) {
    TextFor(q, t).Some? ==>
      e.final(id, t) in after && after[e.final(id, t)] == TextFor(q, t).value && e.temp(id, t) !in after
  }

  ghost predicate SameAt(before: Files, after: Files, p: Path) {
    (p in after <==> p in before) && (p in before && p in after ==> after[p] == before[p])
  }

  /** The files of a request: every text given lies in its final file, no temporary
      file is left, and all other files are as they were. */
  ghost predicate FilesFor(e: Setup, q: Request, id: string, before: Files, after: Files) {
    && (forall t :: Written(e, q, id, after, t))
    && (forall p :: !OwnFile(e, q, id, p) ==> SameAt(before, after, p))
  }

  lemma TextIsWritten(e: Setup, q: Request, ps: seq<Payload>, before: Files, t: RefType)
    requires Separate(e) && Lists(q, ps) && DistinctTypes(ps)
    ensures Written(e, q, q.id, before - Temps(e, q.id, ps) + FinalFiles(e, q.id, ps), t)
  {
    if TextFor(q, t).Some? {
      FinalFilesExact(e, q.id, ps);
      assert Payload(t, TextFor(q, t).value) in ps;
      var k :| 0 <= k < |ps| && ps[k] == Payload(t, TextFor(q, t).value);
      assert Holds(FinalFiles(e, q.id, ps), e.final(q.id, ps[k].refType), ps[k].text);
      assert e.temp(q.id, t) in Temps(e, q.id, ps);
    }
  }

  lemma OtherPathIsKept(e: Setup, q: Request, ps: seq<Payload>, before: Files, p: Path)
    requires Separate(e) && Lists(q, ps) && DistinctTypes(ps) && !OwnFile(e, q, q.id, p)
    ensures SameAt(before, before - Temps(e, q.id, ps) + FinalFiles(e, q.id, ps), p)
  {
    FinalFilesExact(e, q.id, ps);
    forall k | 0 <= k < |ps| ensures p != e.final(q.id, ps[k].refType) && p != e.temp(q.id, ps[k].refType) {
      assert ps[k] in ps;
    }
    assert p !in FinalFiles(e, q.id, ps) && p !in Temps(e, q.id, ps);
  }

  lemma FilesForExact(e: Setup, s: State, q: Request, ps: seq<Payload>, after: Files)
    requires Separate(e) && Lists(q, ps) && DistinctTypes(ps)
    requires after == s.files - Temps(e, q.id, ps) + FinalFiles(e, q.id, ps)
    ensures FilesFor(e, q, q.id, s.files, after)
  {
    forall t ensures Written(e, q, q.id, after, t) {
      TextIsWritten(e, q, ps, s.files, t);
    }
    forall p | !OwnFile(e, q, q.id, p) ensures SameAt(s.files, after, p) {
      OtherPathIsKept(e, q, ps, s.files, p);
    }
  }

  /** An empty id is replaced by the generated one.  A creation without a fault
      succeeds exactly when none of its texts is blank, and then saves the record of
      the request and writes its files. */
  lemma CreationWrites(e: Setup, s: State, given: Request, generated: string)
    requires Separate(e)
    ensures var q := given.(id := if |given.id| == 0 then generated else given.id);
      && Named(given, generated) == q
      && (Succeeds(q, NoFault) <==>
            Strip(q.id) != "" && Strip(q.ownerId) != "" && Strip(q.sessionId) != "" && Strip(q.query) != "")
      && (Succeeds(q, NoFault) ==>
            var next := Created(e, s, q, NoFault);
            && next.meta.Keys == s.meta.Keys + {Strip(q.id)}
            && RecordFor(e, q, q.id, next.meta[Strip(q.id)])
            && (forall other :: other in s.meta && other != Strip(q.id) ==> next.meta[other] == s.meta[other])
            && FilesFor(e, q, q.id, s.files, next.files))
  {
    var q := Named(given, generated);
    if Succeeds(q, NoFault) {
      RecordIsSaved(e, s, q);
      FilesAreWritten(e, s, q);
    }
  }

  lemma RecordIsSaved(e: Setup, s: State, q: Request)
    requires Succeeds(q, NoFault)
    ensures var meta := Created(e, s, q, NoFault).meta;
      && meta.Keys == s.meta.Keys + {Strip(q.id)}
      && RecordFor(e, q, q.id, meta[Strip(q.id)])
      && forall other :: other in s.meta && other != Strip(q.id) ==> meta[other] == s.meta[other]
  {
    EvidenceForExact(e, q);
    var ev := EvidenceFor(e, q);
    assert Created(e, s, q, NoFault).meta == s.meta[Strip(q.id) := ev];
  }

  lemma FilesAreWritten(e: Setup, s: State, q: Request)
    requires Separate(e) && Succeeds(q, NoFault)
    ensures FilesFor(e, q, q.id, s.files, Created(e, s, q, NoFault).files)
  {
    PayloadsExact(q);
    PayloadsDistinct(q);
    FilesForExact(e, s, q, Payloads(q), Created(e, s, q, NoFault).files);
  }

  // ---------- cleanup ----------

  /** The record belongs to the owner and is older than the cutoff. */
  ghost predicate Outdated(s: State, ownerId: string, cutoff: int, id: string) {
    id in s.meta && s.meta[id].ownerId == ownerId && !(s.meta[id].createdAt >= cutoff)
  }

  ghost predicate RefersTo(s: State, id: string, p: Path) {
    id in s.meta && exists r :: r in s.meta[id].refs && r.path == p
  }

  /** A cleanup keeps exactly the records of other owners and those at or after the
      cutoff, and exactly the files to which no removed record refers. */
  lemma CleanupExactly(s: State, ownerId: string, cutoff: int)
    ensures var next := Cleaned(s, Expired(s, ownerId, cutoff));
      && (forall id :: id in next.meta <==> id in s.meta && !Outdated(s, ownerId, cutoff, id))
      && (forall id :: id in next.meta ==> next.meta[id] == s.meta[id])
      && (forall p :: p in next.files <==>
            p in s.files && !exists id :: Outdated(s, ownerId, cutoff, id) && RefersTo(s, id, p))
      && (forall p :: p in next.files ==> next.files[p] == s.files[p])
  {
    var gone := Expired(s, ownerId, cutoff);
    assert forall id :: id in gone <==> Outdated(s, ownerId, cutoff, id);
    forall p ensures p in AllPaths(s, gone) <==> exists id :: Outdated(s, ownerId, cutoff, id) && RefersTo(s, id, p) {
      if p in AllPaths(s, gone) {
        var id, k :| id in gone && id in s.meta && 0 <= k < |s.meta[id].refs| && s.meta[id].refs[k].path == p;
        assert s.meta[id].refs[k] in s.meta[id].refs && RefersTo(s, id, p);
      }
      if id :| Outdated(s, ownerId, cutoff, id) && RefersTo(s, id, p) {
        var r :| r in s.meta[id].refs && r.path == p;
        var k :| 0 <= k < |s.meta[id].refs| && s.meta[id].refs[k] == r;
      }
    }
  }
}
