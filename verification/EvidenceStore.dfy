/** All-or-nothing creation of evidence: raw payload files written aside, metadata
    saved, files moved into place, and everything undone on failure.  Any id is
    accepted; the record is saved under it stripped, the files under it as given. */
module EvidenceStore {
  import opened Wrappers
  import opened PyText
  import opened EvidencePaths

  // ---------- file layout ----------

  /** The digest, and where the files of an evidence id live. */
  datatype Setup = Setup(
    digest: string -> string,
    place: string -> Place,
    final: (string, RefType) -> Path,
    temp: (string, RefType) -> Path)

  /** Files coincide exactly for the same place, type and kind. */
  ghost predicate Separate(e: Setup) {
    && (forall id, t, id', t' :: e.final(id, t) == e.final(id', t') <==> e.place(id) == e.place(id') && t == t')
    && (forall id, t, id', t' :: e.temp(id, t) == e.temp(id', t') <==> e.place(id) == e.place(id') && t == t')
    && (forall id, t, id', t' :: e.final(id, t) != e.temp(id', t'))
  }

  /** The layout of the refs directory. */
  function Jsonl(refs: Path, digest: string -> string): Setup {
    Setup(digest, id => PlaceOf(refs, id), (id, t) => FinalPath(refs, id, t), (id, t) => TempPath(refs, id, t))
  }

  lemma JsonlIsSeparate(refs: Path, digest: string -> string)
    ensures Separate(Jsonl(refs, digest))
  {
    var e := Jsonl(refs, digest);
    forall id, t, id', t' ensures e.final(id, t) == e.final(id', t') <==> e.place(id) == e.place(id') && t == t' {
      PathsInjective(refs, id, t, id', t');
      assert e.final(id, t) == FinalPath(refs, id, t) && e.final(id', t') == FinalPath(refs, id', t');
    }
    forall id, t, id', t' ensures e.temp(id, t) == e.temp(id', t') <==> e.place(id) == e.place(id') && t == t' {
      PathsInjective(refs, id, t, id', t');
      assert e.temp(id, t) == TempPath(refs, id, t) && e.temp(id', t') == TempPath(refs, id', t');
    }
    forall id, t, id', t' ensures e.final(id, t) != e.temp(id', t') {
      PathsInjective(refs, id, t, id', t');
      assert e.final(id, t) == FinalPath(refs, id, t) && e.temp(id', t') == TempPath(refs, id', t');
    }
  }

  // ---------- records ----------

  datatype Ref = Ref(refType: RefType, path: Path, sha: string, size: nat)

  /** The manifest keeps the id as it was given and the refs. */
  datatype Evidence = Evidence(evidenceId: string, ownerId: string, sessionId: string, query: string, given: string,
                               refs: seq<Ref>, createdAt: int)

  type Files = map<Path, string>

  datatype State = State(files: Files, meta: map<string, Evidence>)

  /** A payload is the text its ref file will hold. */
  datatype Payload = Payload(refType: RefType, text: string)

  datatype Request = Request(
    id: string,
    ownerId: string,
    sessionId: string,
    query: string,
    finalResponse: string,
    pastSteps: string,
    keyEvents: Option<string>,
    toolResults: Option<string>,
    memoryObservation: Option<string>,
    createdAt: int)

  function Optional(t: RefType, text: Option<string>): seq<Payload> {
    if text.Some? then [Payload(t, text.value)] else []
  }

  /** The refs to prepare, in order. */
  function Payloads(q: Request): seq<Payload> {
    [Payload(FinalResponse, q.finalResponse), Payload(PastSteps, q.pastSteps)]
    + Optional(KeyEvents, q.keyEvents) + Optional(ToolResults, q.toolResults)
    + Optional(MemoryObservation, q.memoryObservation)
  }

  ghost predicate DistinctTypes(ps: seq<Payload>) {
    forall i, j :: 0 <= i < j < |ps| ==> ps[i].refType != ps[j].refType
  }

  lemma PayloadsDistinct(q: Request)
    ensures DistinctTypes(Payloads(q))
  {
  }

  function RefFor(e: Setup, id: string, p: Payload): Ref {
    Ref(p.refType, e.final(id, p.refType), e.digest(p.text), |p.text|)
  }

  /** The record is saved under the stripped id, its files lie under the id as given. */
  function EvidenceFor(e: Setup, q: Request): Evidence {
    var ps := Payloads(q);
    Evidence(Strip(q.id), Strip(q.ownerId), Strip(q.sessionId), Strip(q.query), q.id,
             seq(|ps|, k requires 0 <= k < |ps| => RefFor(e, q.id, ps[k])), q.createdAt)
  }

  /** The model accepts the request. */
  predicate Acceptable(q: Request) {
    !Blank(q.sessionId) && !Blank(q.ownerId) && !Blank(q.query)
  }

  /** A missing id is generated. */
  function Named(q: Request, generated: string): Request {
    if q.id == "" then q.(id := generated) else q
  }

  /** Where an exception strikes; writing a ref may leave half a temporary file. */
  datatype Fault =
    | NoFault
    | InPrepare(k: nat, half: Option<string>)
    | InBuild
    | InSave(committed: bool)
    | InReplace(j: nat)

  // ---------- the closed form ----------

  function Temps(e: Setup, id: string, ps: seq<Payload>): set<Path> {
    set k | 0 <= k < |ps| :: e.temp(id, ps[k].refType)
  }

  function Finals(e: Setup, id: string, ps: seq<Payload>): set<Path> {
    set k | 0 <= k < |ps| :: e.final(id, ps[k].refType)
  }

  function FinalFiles(e: Setup, id: string, ps: seq<Payload>): Files {
    if ps == [] then map[]
    else
      var p := ps[|ps| - 1];
      FinalFiles(e, id, ps[..|ps| - 1])[e.final(id, p.refType) := p.text]
  }

  /** A blank id is refused when the first ref is built, after its temporary file. */
  function Effective(q: Request, fault: Fault): Fault {
    if Blank(q.id) && !(fault.InPrepare? && fault.k == 0) then InPrepare(0, Some(q.finalResponse)) else fault
  }

  /** The refs prepared before the fault. */
  function PreparedPart(q: Request, fault: Fault): seq<Payload> {
    var f := Effective(q, fault);
    if f.InPrepare? && f.k < |Payloads(q)| then Payloads(q)[..f.k] else Payloads(q)
  }

  /** What a failed preparation leaves behind. */
  function Leftover(e: Setup, q: Request, fault: Fault): Files {
    var f := Effective(q, fault);
    if f.InPrepare? && f.k < |Payloads(q)| && f.half.Some?
    then map[e.temp(q.id, Payloads(q)[f.k].refType) := f.half.value]
    else map[]
  }

  predicate Strikes(q: Request, fault: Fault) {
    match fault
    case NoFault => false
    case InPrepare(k, _) => k < |Payloads(q)|
    case InBuild => true
    case InSave(_) => true
    case InReplace(j) => j < |Payloads(q)|
  }

  predicate Succeeds(q: Request, fault: Fault) {
    Acceptable(q) && !Blank(q.id) && !Strikes(q, fault)
  }

  /** The record was saved before the fault. */
  predicate Saves(q: Request, fault: Fault) {
    && Acceptable(q) && !Blank(q.id)
    && ((fault.InSave? && fault.committed) || (fault.InReplace? && fault.j < |Payloads(q)|))
  }

  function MetaAtFault(e: Setup, s: State, q: Request, fault: Fault): map<string, Evidence> {
    if Saves(q, fault) then s.meta[Strip(q.id) := EvidenceFor(e, q)] else s.meta
  }

  /** Creation either puts all files in place and saves the metadata, or removes
      the record under the id as given and every prepared file. */
  function Created(e: Setup, s: State, q: Request, fault: Fault): State {
    if Succeeds(q, fault) then
      State(s.files - Temps(e, q.id, Payloads(q)) + FinalFiles(e, q.id, Payloads(q)),
            s.meta[Strip(q.id) := EvidenceFor(e, q)])
    else
      var done := PreparedPart(q, fault);
      State((s.files + Leftover(e, q, fault)) - Temps(e, q.id, done) - Finals(e, q.id, done),
            MetaAtFault(e, s, q, fault) - {q.id})
  }

  // ---------- the store ----------

  class MemoryEvidenceStore {
    var files: Files
    var meta: map<string, Evidence>
    const e: Setup

    function Model(): State
      reads this
    {
      State(files, meta)
    }

    constructor (refs: Path, digest: string -> string)
      ensures Model() == State(map[], map[]) && e == Jsonl(refs, digest) && Separate(e)
    {
      files, meta, e := map[], map[], Jsonl(refs, digest);
      JsonlIsSeparate(refs, digest);
    }

    method CreateAiopsEvidence(given: Request, generated: string, fault: Fault) returns (ok: bool)
      requires Separate(e)
      modifies this
      ensures Model() == Created(e, old(Model()), Named(given, generated), fault)
      ensures ok <==> Succeeds(Named(given, generated), fault)
    {
      var q := Named(given, generated);
      var ps := Payloads(q);
      PayloadsDistinct(q);
      ghost var before := files;
      var done := WriteTemps(q, fault, ps);
      if done < |ps| {
        RollbackAfterPrepare(e, before, files, q, fault);
        Rollback(q.id, ps[..done]);
        return false;
      }
      assert PreparedPart(q, fault) == ps;
      if fault.InBuild? || !Acceptable(q) {
        RollbackFrom(e, before, files, q.id, ps, 0);
        Rollback(q.id, ps);
        return false;
      }
      if fault.InSave? {
        if fault.committed {
          meta := meta[Strip(q.id) := EvidenceFor(e, q)];
        }
        RollbackFrom(e, before, files, q.id, ps, 0);
        Rollback(q.id, ps);
        return false;
      }
      meta := meta[Strip(q.id) := EvidenceFor(e, q)];
      ok := MoveTemps(q, fault, ps, before);
      if !ok {
        RollbackFrom(e, before, files, q.id, ps, fault.j);
        Rollback(q.id, ps);
        return;
      }
      AllMoved(e, before, files, q.id, ps);
    }

    /** Prepares the refs one after the other, as far as it gets. */
    method WriteTemps(q: Request, fault: Fault, ps: seq<Payload>) returns (done: nat)
      requires Separate(e) && DistinctTypes(ps) && ps == Payloads(q)
      modifies this`files
      ensures done <= |ps| && PreparedPart(q, fault) == ps[..done]
      ensures done == |ps| ==> !Blank(q.id) && !(fault.InPrepare? && fault.k < |ps|)
      ensures done == |ps| ==> Preparing(e, old(files), files, q.id, ps, |ps|)
      ensures done < |ps| ==> Interrupted(e, old(files), files, q, fault)
    {
      assert ps[..|ps|] == ps;
      for k := 0 to |ps|
        invariant fault.InPrepare? ==> k <= fault.k || fault.k >= |ps|
        invariant Blank(q.id) ==> k == 0
        invariant Preparing(e, old(files), files, q.id, ps, k)
      {
        ghost var at := files;
        var temp := e.temp(q.id, ps[k].refType);
        if fault.InPrepare? && fault.k == k {
          if fault.half.Some? {
            files := files[temp := fault.half.value];
          }
          assert files == at + Leftover(e, q, fault);
          return k;
        }
        PrepareStep(e, old(files), files, q.id, ps, k);
        files := files[temp := ps[k].text];
        if Blank(q.id) {
          assert files == at + Leftover(e, q, fault);
          return k;
        }
      }
      return |ps|;
    }

    /** Moves the temporary files into place. */
    method MoveTemps(q: Request, fault: Fault, ps: seq<Payload>, ghost before: Files) returns (ok: bool)
      requires Separate(e) && DistinctTypes(ps) && Preparing(e, before, files, q.id, ps, |ps|)
      modifies this`files
      ensures !ok <==> fault.InReplace? && fault.j < |ps|
      ensures Moving(e, before, files, q.id, ps, if ok then |ps| else fault.j)
    {
      assert ps[..|ps|] == ps && ps[..0] == [];
      for j := 0 to |ps|
        invariant fault.InReplace? ==> j <= fault.j || fault.j >= |ps|
        invariant Moving(e, before, files, q.id, ps, j)
      {
        if fault.InReplace? && fault.j == j {
          return false;
        }
        MoveStep(e, before, files, q.id, ps, j);
        var temp := e.temp(q.id, ps[j].refType);
        files := (files - {temp})[e.final(q.id, ps[j].refType) := files[temp]];
      }
      return true;
    }

    /** The exception handler. */
    method Rollback(id: string, prepared: seq<Payload>)
      modifies this
      ensures files == old(files) - Temps(e, id, prepared) - Finals(e, id, prepared)
      ensures meta == old(meta) - {id}
    {
      meta := meta - {id};
      for k := 0 to |prepared|
        invariant files == old(files) - Temps(e, id, prepared[..k]) - Finals(e, id, prepared[..k])
        invariant meta == old(meta) - {id}
      {
        TakeOne(e, id, prepared, k);
        files := files - {e.temp(id, prepared[k].refType)};
        files := files - {e.final(id, prepared[k].refType)};
      }
      assert prepared[..|prepared|] == prepared;
    }

    method CheckIntegrity(id: string) returns (ok: bool)
      ensures ok <==> Intact(e, Model(), id)
    {
      if id !in meta {
        return false;
      }
      var refs := meta[id].refs;
      ok := true;
      for k := 0 to |refs|
        invariant ok <==> forall i :: 0 <= i < k ==> RefIntact(e, files, refs[i])
      {
        var r := refs[k];
        if r.path !in files || e.digest(files[r.path]) != r.sha || |files[r.path]| != r.size {
          ok := false;
        }
      }
    }

    /** Removes the owner's records created before the cutoff, file by file; where
        an operation raises, what has been removed stays removed. */
    method CleanupExpiredEvidence(retention: int, ownerId: string, dryRun: bool, now: int, raises: (string, nat) -> bool)
      returns (deleted: Result<nat>)
      modifies this
      ensures retention <= 0 ==> deleted.Raised? && Model() == old(Model())
      ensures retention > 0 && dryRun ==> deleted == Ok(0) && Model() == old(Model())
      ensures retention > 0 && !dryRun ==>
        var gone := Expired(old(Model()), ownerId, now - retention);
        && (deleted.Ok? <==> forall id :: id in gone ==> Removable(old(Model()), id, raises))
        && (deleted.Ok? ==> deleted.value == |gone| && Model() == Cleaned(old(Model()), gone))
        && (deleted.Raised? ==> StoppedAmong(old(Model()), gone, raises, Model()))
    {
      if retention <= 0 {
        return Raised("retention_days must be positive");
      }
      if dryRun {
        return Ok(0);
      }
      var gone := Expired(Model(), ownerId, now - retention);
      var left, count := gone, 0;
      ghost var start := Model();
      while left != {}
        invariant left <= gone && count == |gone| - |left|
        invariant Cleaning(start, gone, left, raises, Model())
        decreases |left|
      {
        var id :| id in left;
        ghost var now := Model();
        CleaningStep(start, gone, left, id, raises, now);
        var ok, removed := RemoveRecord(id, raises);
        if !ok {
          CleaningStops(start, gone, left, id, removed, raises, now);
          return Raised("cleanup stopped");
        }
        left, count := left - {id}, count + 1;
      }
      assert gone - {} == gone;
      return Ok(count);
    }

    /** Unlinks the ref files, then deletes the row; `removed` operations succeed. */
    method RemoveRecord(id: string, raises: (string, nat) -> bool) returns (ok: bool, ghost removed: nat)
      requires id in meta
      modifies this
      ensures ok <==> Removable(old(Model()), id, raises)
      ensures ok ==> files == old(files) - PathsOf(old(meta)[id].refs) && meta == old(meta) - {id}
      ensures !ok ==>
        && removed <= |old(meta)[id].refs| && raises(id, removed) && meta == old(meta)
        && files == old(files) - PathsOf(old(meta)[id].refs[..removed])
    {
      var refs := meta[id].refs;
      for k := 0 to |refs|
        invariant meta == old(meta) && files == old(files) - PathsOf(refs[..k])
        invariant forall j: nat :: j < k ==> !raises(id, j)
      {
        if raises(id, k) {
          return false, k;
        }
        PathsOfNext(refs, k);
        files := files - {refs[k].path};
      }
      assert refs[..|refs|] == refs;
      if raises(id, |refs|) {
        return false, |refs|;
      }
      meta := meta - {id};
      return true, |refs| + 1;
    }
  }

  // ---------- progress of one creation ----------

  /** The first `k` temporary files are written; nothing else has changed. */
  ghost predicate Preparing(e: Setup, before: Files, now: Files, id: string, ps: seq<Payload>, k: nat)
    requires k <= |ps|
  {
    && now - Temps(e, id, ps[..k]) == before - Temps(e, id, ps[..k])
    && forall i :: 0 <= i < k ==> e.temp(id, ps[i].refType) in now && now[e.temp(id, ps[i].refType)] == ps[i].text
  }

  /** The first `j` files are in place, the others still aside. */
  ghost predicate Moving(e: Setup, before: Files, now: Files, id: string, ps: seq<Payload>, j: nat)
    requires j <= |ps|
  {
    && now - Temps(e, id, ps) - Finals(e, id, ps[..j]) == before - Temps(e, id, ps) - Finals(e, id, ps[..j])
    && (forall i :: 0 <= i < j ==> e.temp(id, ps[i].refType) !in now)
    && (forall i :: 0 <= i < j ==>
          e.final(id, ps[i].refType) in now && now[e.final(id, ps[i].refType)] == ps[i].text)
    && (forall i :: j <= i < |ps| ==>
          e.temp(id, ps[i].refType) in now && now[e.temp(id, ps[i].refType)] == ps[i].text)
  }

  lemma TakeOne(e: Setup, id: string, ps: seq<Payload>, k: nat)
    requires k < |ps|
    ensures Temps(e, id, ps[..k + 1]) == Temps(e, id, ps[..k]) + {e.temp(id, ps[k].refType)}
    ensures Finals(e, id, ps[..k + 1]) == Finals(e, id, ps[..k]) + {e.final(id, ps[k].refType)}
  {
    var next, front := ps[..k + 1], ps[..k];
    assert forall i :: 0 <= i < k ==> next[i] == front[i];
    assert next[k] == ps[k];
    forall p ensures p in Temps(e, id, next) <==> p in Temps(e, id, front) + {e.temp(id, ps[k].refType)} {
      if p in Temps(e, id, front) {
        var i :| 0 <= i < k && e.temp(id, front[i].refType) == p;
        assert e.temp(id, next[i].refType) == p;
      }
    }
    forall p ensures p in Finals(e, id, next) <==> p in Finals(e, id, front) + {e.final(id, ps[k].refType)} {
      if p in Finals(e, id, front) {
        var i :| 0 <= i < k && e.final(id, front[i].refType) == p;
        assert e.final(id, next[i].refType) == p;
      }
    }
  }

  lemma PrepareStep(e: Setup, before: Files, now: Files, id: string, ps: seq<Payload>, k: nat)
    requires Separate(e)
    requires k < |ps| && DistinctTypes(ps) && Preparing(e, before, now, id, ps, k)
    ensures Preparing(e, before, now[e.temp(id, ps[k].refType) := ps[k].text], id, ps, k + 1)
  {
    TakeOne(e, id, ps, k);
    forall i | 0 <= i < k ensures e.temp(id, ps[i].refType) != e.temp(id, ps[k].refType) {
    }
    Removed(before, now, Temps(e, id, ps[..k]), e.temp(id, ps[k].refType), ps[k].text);
  }

  lemma Removed(a: Files, b: Files, gone: set<Path>, key: Path, value: string)
    requires a - gone == b - gone
    ensures a - (gone + {key}) == b[key := value] - (gone + {key})
  {
    forall p | p !in gone + {key} ensures p in a <==> p in b {
      assert p in a - gone <==> p in b - gone;
    }
    forall p | p in a && p !in gone + {key} ensures a[p] == b[p] {
      assert (a - gone)[p] == (b - gone)[p];
    }
  }

  lemma MoveStep(e: Setup, before: Files, now: Files, id: string, ps: seq<Payload>, j: nat)
    requires Separate(e)
    requires j < |ps| && DistinctTypes(ps) && Moving(e, before, now, id, ps, j)
    ensures e.temp(id, ps[j].refType) in now
    ensures var temp := e.temp(id, ps[j].refType);
      Moving(e, before, (now - {temp})[e.final(id, ps[j].refType) := now[temp]], id, ps, j + 1)
  {
    var temp, final := e.temp(id, ps[j].refType), e.final(id, ps[j].refType);
    var next := (now - {temp})[final := now[temp]];
    TakeOne(e, id, ps, j);
    forall i | 0 <= i < |ps|
      ensures i != j ==> e.temp(id, ps[i].refType) != temp && e.final(id, ps[i].refType) != final
      ensures e.temp(id, ps[i].refType) != final && e.final(id, ps[i].refType) != temp
    {
    }
    assert temp in Temps(e, id, ps);
    var gone := Temps(e, id, ps) + Finals(e, id, ps[..j]);
    Subtract(now, Temps(e, id, ps), Finals(e, id, ps[..j]));
    Subtract(before, Temps(e, id, ps), Finals(e, id, ps[..j]));
    Removed(before, now, gone, final, now[temp]);
    assert next - (gone + {final}) == now[final := now[temp]] - (gone + {final});
    Subtract(next, Temps(e, id, ps), Finals(e, id, ps[..j + 1]));
    Subtract(before, Temps(e, id, ps), Finals(e, id, ps[..j + 1]));
    assert gone + {final} == Temps(e, id, ps) + Finals(e, id, ps[..j + 1]);
  }

  lemma Subtract(m: Files, a: set<Path>, b: set<Path>)
    ensures m - a - b == m - (a + b)
  {
  }

  /** The handler restores everything outside the id's own files. */
  lemma RollbackFrom(e: Setup, before: Files, now: Files, id: string, ps: seq<Payload>, j: nat)
    requires j <= |ps| && DistinctTypes(ps)
    requires Moving(e, before, now, id, ps, j) || (j == 0 && Preparing(e, before, now, id, ps, |ps|))
    ensures now - Temps(e, id, ps) - Finals(e, id, ps) == (before + map[]) - Temps(e, id, ps) - Finals(e, id, ps)
  {
    assert before + map[] == before;
    assert ps[..|ps|] == ps;
    if Moving(e, before, now, id, ps, j) {
      forall p | p in Finals(e, id, ps[..j]) ensures p in Finals(e, id, ps) {
        var i :| 0 <= i < j && e.final(id, ps[..j][i].refType) == p;
        assert e.final(id, ps[i].refType) == p;
      }
      Narrow(before - Temps(e, id, ps), now - Temps(e, id, ps), Finals(e, id, ps[..j]), Finals(e, id, ps));
    }
  }

  lemma Narrow(a: Files, b: Files, small: set<Path>, big: set<Path>)
    requires a - small == b - small && small <= big
    ensures a - big == b - big
  {
    assert a - big == (a - small) - big && b - big == (b - small) - big;
  }

  /** A preparation has failed and left its temporary file behind. */
  ghost predicate Interrupted(e: Setup, before: Files, now: Files, q: Request, fault: Fault) {
    && Effective(q, fault).InPrepare? && Effective(q, fault).k < |Payloads(q)|
    && exists at: Files :: Preparing(e, before, at, q.id, Payloads(q), Effective(q, fault).k)
                           && now == at + Leftover(e, q, fault)
  }

  lemma RollbackAfterPrepare(e: Setup, before: Files, now: Files, q: Request, fault: Fault)
    requires Interrupted(e, before, now, q, fault)
    ensures var done := PreparedPart(q, fault);
      now - Temps(e, q.id, done) - Finals(e, q.id, done)
      == (before + Leftover(e, q, fault)) - Temps(e, q.id, done) - Finals(e, q.id, done)
  {
    var at: Files :| Preparing(e, before, at, q.id, Payloads(q), Effective(q, fault).k)
                     && now == at + Leftover(e, q, fault);
    var done, extra := PreparedPart(q, fault), Leftover(e, q, fault);
    SubtractSum(at, extra, Temps(e, q.id, done));
    SubtractSum(before, extra, Temps(e, q.id, done));
  }

  lemma SubtractSum(a: Files, b: Files, gone: set<Path>)
    ensures (a + b) - gone == (a - gone) + (b - gone)
  {
  }

  lemma {:induction false} FinalFilesAt(e: Setup, id: string, ps: seq<Payload>, k: nat)
    requires Separate(e) && DistinctTypes(ps) && k < |ps|
    ensures Holds(FinalFiles(e, id, ps), e.final(id, ps[k].refType), ps[k].text)
  {
    var n := |ps| - 1;
    if k < n {
      assert ps[k].refType != ps[n].refType;
      assert e.final(id, ps[k].refType) != e.final(id, ps[n].refType);
      assert ps[..n][k] == ps[k];
      FinalFilesAt(e, id, ps[..n], k);
    }
  }

  lemma {:induction false} FinalFilesKeys(e: Setup, id: string, ps: seq<Payload>)
    ensures FinalFiles(e, id, ps).Keys == Finals(e, id, ps)
  {
    if ps != [] {
      FinalFilesKeys(e, id, ps[..|ps| - 1]);
      TakeOne(e, id, ps, |ps| - 1);
      assert ps[..|ps|] == ps;
    }
  }

  lemma FinalFilesExact(e: Setup, id: string, ps: seq<Payload>)
    requires Separate(e) && DistinctTypes(ps)
    ensures FinalFiles(e, id, ps).Keys == Finals(e, id, ps)
    ensures forall k :: 0 <= k < |ps| ==> Holds(FinalFiles(e, id, ps), e.final(id, ps[k].refType), ps[k].text)
  {
    FinalFilesKeys(e, id, ps);
    forall k | 0 <= k < |ps| ensures Holds(FinalFiles(e, id, ps), e.final(id, ps[k].refType), ps[k].text) {
      FinalFilesAt(e, id, ps, k);
    }
  }

  predicate Holds(files: Files, path: Path, text: string) {
    path in files && files[path] == text
  }

  lemma AllMoved(e: Setup, before: Files, now: Files, id: string, ps: seq<Payload>)
    requires Separate(e)
    requires DistinctTypes(ps) && Moving(e, before, now, id, ps, |ps|)
    ensures now == before - Temps(e, id, ps) + FinalFiles(e, id, ps)
  {
    var target := before - Temps(e, id, ps) + FinalFiles(e, id, ps);
    FinalFilesExact(e, id, ps);
    assert ps[..|ps|] == ps;
    forall p ensures p in now <==> p in target
      ensures p in now ==> now[p] == target[p]
    {
      if p in Finals(e, id, ps) {
        var k :| 0 <= k < |ps| && e.final(id, ps[k].refType) == p;
      } else if p in Temps(e, id, ps) {
        var k :| 0 <= k < |ps| && e.temp(id, ps[k].refType) == p;
      } else {
        var a, b := now - Temps(e, id, ps) - Finals(e, id, ps), before - Temps(e, id, ps) - Finals(e, id, ps);
        assert p in now <==> p in a;
        assert p in before <==> p in b;
        assert p in a ==> a[p] == b[p];
      }
    }
  }

  // ---------- integrity ----------

  ghost predicate RefIntact(e: Setup, files: Files, r: Ref) {
    r.path in files && e.digest(files[r.path]) == r.sha && |files[r.path]| == r.size
  }

  ghost predicate RefsIntact(e: Setup, files: Files, refs: seq<Ref>) {
    forall k :: 0 <= k < |refs| ==> RefIntact(e, files, refs[k])
  }

  ghost predicate Intact(e: Setup, s: State, id: string) {
    id in s.meta && RefsIntact(e, s.files, s.meta[id].refs)
  }

  /** The record lies in the files of the id as given, the final response among them. */
  predicate OwnPaths(e: Setup, id: string, ev: Evidence) {
    && ev.evidenceId == id == Strip(ev.given)
    && ev.refs != [] && ev.refs[0].refType == FinalResponse
    && forall k :: 0 <= k < |ev.refs| ==> ev.refs[k].path == e.final(ev.given, ev.refs[k].refType)
  }

  /** Every record in the metadata passes the integrity check. */
  ghost predicate AllIntact(e: Setup, s: State) {
    forall id :: id in s.meta ==> OwnPaths(e, id, s.meta[id]) && Intact(e, s, id)
  }

  lemma NewRecordOwnsPaths(e: Setup, q: Request)
    ensures OwnPaths(e, Strip(q.id), EvidenceFor(e, q))
  {
    assert Payloads(q)[0].refType == FinalResponse;
  }

  /** On success the integrity check passes under the stripped id; under the id as
      given, if no record has it yet, exactly when that one is stripped. */
  lemma CreatedIsIntact(e: Setup, s: State, q: Request, fault: Fault)
    requires Separate(e)
    requires Succeeds(q, fault)
    ensures Intact(e, Created(e, s, q, fault), Strip(q.id))
    ensures q.id !in s.meta ==> (Intact(e, Created(e, s, q, fault), q.id) <==> Strip(q.id) == q.id)
  {
    PayloadsDistinct(q);
    FinalFilesExact(e, q.id, Payloads(q));
  }

  lemma PathsApart(e: Setup, id: string, other: string, ps: seq<Payload>, t: RefType)
    requires Separate(e)
    ensures e.final(other, t) !in Temps(e, id, ps)
    ensures e.final(other, t) in Finals(e, id, ps) <==>
            e.place(other) == e.place(id) && exists k :: 0 <= k < |ps| && ps[k].refType == t
  {
    if e.final(other, t) in Finals(e, id, ps) {
      var k :| 0 <= k < |ps| && e.final(id, ps[k].refType) == e.final(other, t);
    }
    if e.place(other) == e.place(id) {
      assert forall k :: 0 <= k < |ps| && ps[k].refType == t ==> e.final(id, ps[k].refType) == e.final(other, t);
    }
  }

  /** The payloads are, where the record has a ref of the type, what it noted. */
  predicate Agrees(e: Setup, ev: Evidence, ps: seq<Payload>) {
    forall k, i :: 0 <= k < |ev.refs| && 0 <= i < |ps| && ev.refs[k].refType == ps[i].refType ==>
      e.digest(ps[i].text) == ev.refs[k].sha && |ps[i].text| == ev.refs[k].size
  }

  lemma MovedElsewhere(e: Setup, files: Files, moved: Files, ev: Evidence, id: string, ps: seq<Payload>)
    requires Separate(e) && OwnPaths(e, ev.evidenceId, ev) && RefsIntact(e, files, ev.refs)
    requires moved.Keys == Finals(e, id, ps) && e.place(ev.given) != e.place(id)
    ensures RefsIntact(e, files - Temps(e, id, ps) + moved, ev.refs)
  {
    forall k | 0 <= k < |ev.refs| ensures RefIntact(e, files - Temps(e, id, ps) + moved, ev.refs[k]) {
      assert RefIntact(e, files, ev.refs[k]);
      PathsApart(e, id, ev.given, ps, ev.refs[k].refType);
    }
  }

  lemma MovedHere(e: Setup, files: Files, moved: Files, ev: Evidence, id: string, ps: seq<Payload>)
    requires Separate(e) && OwnPaths(e, ev.evidenceId, ev) && RefsIntact(e, files, ev.refs)
    requires moved.Keys == Finals(e, id, ps) && e.place(ev.given) == e.place(id)
    requires forall k :: 0 <= k < |ps| ==> Holds(moved, e.final(id, ps[k].refType), ps[k].text)
    ensures RefsIntact(e, files - Temps(e, id, ps) + moved, ev.refs) <==> Agrees(e, ev, ps)
  {
    var after := files - Temps(e, id, ps) + moved;
    forall k, i | 0 <= k < |ev.refs| && 0 <= i < |ps| && ev.refs[k].refType == ps[i].refType
      ensures RefIntact(e, after, ev.refs[k]) <==>
              e.digest(ps[i].text) == ev.refs[k].sha && |ps[i].text| == ev.refs[k].size
    {
      assert ev.refs[k].path == e.final(id, ps[i].refType);
      assert Holds(moved, e.final(id, ps[i].refType), ps[i].text);
    }
    forall k | 0 <= k < |ev.refs|
      ensures RefIntact(e, after, ev.refs[k]) || exists i :: 0 <= i < |ps| && ps[i].refType == ev.refs[k].refType
    {
      assert RefIntact(e, files, ev.refs[k]);
      PathsApart(e, id, ev.given, ps, ev.refs[k].refType);
    }
  }

  lemma OtherAfterSuccess(e: Setup, s: State, q: Request, fault: Fault, id: string)
    requires Separate(e) && AllIntact(e, s) && Succeeds(q, fault)
    requires id in s.meta && id != Strip(q.id)
    ensures OwnPaths(e, id, s.meta[id])
    ensures Intact(e, Created(e, s, q, fault), id) <==>
            (e.place(s.meta[id].given) == e.place(q.id) ==> Agrees(e, s.meta[id], Payloads(q)))
  {
    var ps, ev := Payloads(q), s.meta[id];
    PayloadsDistinct(q);
    FinalFilesExact(e, q.id, ps);
    assert Intact(e, s, id);
    if e.place(ev.given) == e.place(q.id) {
      MovedHere(e, s.files, FinalFiles(e, q.id, ps), ev, q.id, ps);
    } else {
      MovedElsewhere(e, s.files, FinalFiles(e, q.id, ps), ev, q.id, ps);
    }
  }

  lemma AllIntactWith(e: Setup, next: State, meta: map<string, Evidence>, q: Request, ps: seq<Payload>)
    requires next.meta.Keys == meta.Keys + {Strip(q.id)}
    requires OwnPaths(e, Strip(q.id), next.meta[Strip(q.id)]) && Intact(e, next, Strip(q.id))
    requires forall id :: id in meta && id != Strip(q.id) ==>
      && next.meta[id] == meta[id] && OwnPaths(e, id, meta[id])
      && (Intact(e, next, id) <==> (e.place(meta[id].given) == e.place(q.id) ==> Agrees(e, meta[id], ps)))
    ensures AllIntact(e, next) <==>
            forall id :: id in meta && id != Strip(q.id) && e.place(meta[id].given) == e.place(q.id) ==>
              Agrees(e, meta[id], ps)
  {
  }

  /** A successful creation leaves every record intact if and only if it writes what
      they noted over the files of other records at its place. */
  lemma SuccessKeepsIntegrity(e: Setup, s: State, q: Request, fault: Fault)
    requires Separate(e) && AllIntact(e, s) && Succeeds(q, fault)
    ensures AllIntact(e, Created(e, s, q, fault)) <==>
            forall id :: id in s.meta && id != Strip(q.id) && e.place(s.meta[id].given) == e.place(q.id) ==>
              Agrees(e, s.meta[id], Payloads(q))
  {
    var next, ps := Created(e, s, q, fault), Payloads(q);
    CreatedIsIntact(e, s, q, fault);
    NewRecordOwnsPaths(e, q);
    forall id | id in s.meta && id != Strip(q.id)
      ensures next.meta[id] == s.meta[id] && OwnPaths(e, id, s.meta[id])
      ensures Intact(e, next, id) <==> (e.place(s.meta[id].given) == e.place(q.id) ==> Agrees(e, s.meta[id], ps))
    {
      OtherAfterSuccess(e, s, q, fault, id);
    }
    AllIntactWith(e, next, s.meta, q, ps);
  }

  /** No other record lies at the place of the id. */
  ghost predicate Alone(e: Setup, meta: map<string, Evidence>, id: string) {
    forall other :: other in meta && other != id ==> e.place(meta[other].given) != e.place(id)
  }

  lemma RemovedElsewhere(e: Setup, files: Files, ev: Evidence, id: string, done: seq<Payload>)
    requires Separate(e) && OwnPaths(e, ev.evidenceId, ev) && RefsIntact(e, files, ev.refs)
    requires done == [] || e.place(ev.given) != e.place(id)
    ensures RefsIntact(e, files - Temps(e, id, done) - Finals(e, id, done), ev.refs)
  {
    forall k | 0 <= k < |ev.refs|
      ensures RefIntact(e, files - Temps(e, id, done) - Finals(e, id, done), ev.refs[k])
    {
      assert RefIntact(e, files, ev.refs[k]);
      PathsApart(e, id, ev.given, done, ev.refs[k].refType);
    }
  }

  lemma RemovedHere(e: Setup, files: Files, ev: Evidence, id: string, done: seq<Payload>)
    requires Separate(e) && OwnPaths(e, ev.evidenceId, ev)
    requires done != [] && done[0].refType == FinalResponse && e.place(ev.given) == e.place(id)
    ensures !RefsIntact(e, files - Temps(e, id, done) - Finals(e, id, done), ev.refs)
  {
    PathsApart(e, id, ev.given, done, FinalResponse);
    assert !RefIntact(e, files - Temps(e, id, done) - Finals(e, id, done), ev.refs[0]);
  }

  lemma LeftoverElsewhere(e: Setup, files: Files, ev: Evidence, q: Request, fault: Fault)
    requires Separate(e) && OwnPaths(e, ev.evidenceId, ev) && RefsIntact(e, files, ev.refs)
    ensures RefsIntact(e, files + Leftover(e, q, fault), ev.refs)
  {
    forall k | 0 <= k < |ev.refs| ensures RefIntact(e, files + Leftover(e, q, fault), ev.refs[k]) {
      assert RefIntact(e, files, ev.refs[k]);
      assert ev.refs[k].path !in Leftover(e, q, fault);
    }
  }

  lemma PreparedStart(q: Request, fault: Fault)
    ensures PreparedPart(q, fault) != [] ==> PreparedPart(q, fault)[0].refType == FinalResponse
    ensures Saves(q, fault) ==> PreparedPart(q, fault) != []
  {
  }

  lemma RecordAtFault(e: Setup, s: State, q: Request, fault: Fault, id: string)
    requires AllIntact(e, s)
    requires id in MetaAtFault(e, s, q, fault)
    ensures var ev := MetaAtFault(e, s, q, fault)[id];
      && OwnPaths(e, id, ev)
      && (ev.given != q.id || PreparedPart(q, fault) == [] ==> id in s.meta && ev == s.meta[id])
  {
    NewRecordOwnsPaths(e, q);
    PreparedStart(q, fault);
  }

  lemma FailedFiles(e: Setup, s: State, q: Request, fault: Fault, id: string)
    requires !Succeeds(q, fault)
    requires id in MetaAtFault(e, s, q, fault) && id != q.id
    ensures var next, done := Created(e, s, q, fault), PreparedPart(q, fault);
      && id in next.meta && next.meta[id] == MetaAtFault(e, s, q, fault)[id]
      && next.files == (s.files + Leftover(e, q, fault)) - Temps(e, q.id, done) - Finals(e, q.id, done)
  {
  }

  lemma OtherAfterFailure(e: Setup, s: State, q: Request, fault: Fault, id: string)
    requires Separate(e) && AllIntact(e, s) && !Succeeds(q, fault)
    requires id in MetaAtFault(e, s, q, fault) && id != q.id
    ensures var next, ev := Created(e, s, q, fault), MetaAtFault(e, s, q, fault)[id];
      && OwnPaths(e, id, ev)
      && (Intact(e, next, id) <==> PreparedPart(q, fault) == [] || e.place(ev.given) != e.place(q.id))
  {
    RecordAtFault(e, s, q, fault, id);
    FailedFiles(e, s, q, fault, id);
    PreparedStart(q, fault);
    RecordAfterRemoval(e, s, q, fault, id, MetaAtFault(e, s, q, fault)[id], PreparedPart(q, fault));
  }

  lemma RecordAfterRemoval(e: Setup, s: State, q: Request, fault: Fault, id: string, ev: Evidence, done: seq<Payload>)
    requires Separate(e) && AllIntact(e, s) && OwnPaths(e, id, ev)
    requires done != [] ==> done[0].refType == FinalResponse
    requires ev.given != q.id || done == [] ==> id in s.meta && ev == s.meta[id]
    ensures RefsIntact(e, (s.files + Leftover(e, q, fault)) - Temps(e, q.id, done) - Finals(e, q.id, done), ev.refs)
            <==> done == [] || e.place(ev.given) != e.place(q.id)
  {
    if done != [] && e.place(ev.given) == e.place(q.id) {
      RemovedHere(e, s.files + Leftover(e, q, fault), ev, q.id, done);
    } else {
      assert Intact(e, s, id);
      LeftoverElsewhere(e, s.files, ev, q, fault);
      RemovedElsewhere(e, s.files + Leftover(e, q, fault), ev, q.id, done);
    }
  }

  lemma AllIntactWithout(e: Setup, next: State, meta: map<string, Evidence>, id: string, safe: bool)
    requires next.meta == meta - {id}
    requires forall other :: other in meta && other != id ==>
      OwnPaths(e, other, meta[other]) && (Intact(e, next, other) <==> safe || e.place(meta[other].given) != e.place(id))
    ensures AllIntact(e, next) <==>
            safe || Alone(e, meta, id)
  {
  }

  /** A record saved under another id than the given one is not alone there. */
  lemma AloneAtFault(e: Setup, s: State, q: Request, fault: Fault)
    ensures Alone(e, MetaAtFault(e, s, q, fault), q.id) <==>
            (Saves(q, fault) ==> Strip(q.id) == q.id) && Alone(e, s.meta, q.id)
  {
    var meta := MetaAtFault(e, s, q, fault);
    forall id | id in s.meta && (Saves(q, fault) ==> id != Strip(q.id)) ensures id in meta && meta[id] == s.meta[id] {
    }
    if Saves(q, fault) {
      assert meta[Strip(q.id)].given == q.id;
    }
  }

  /** A failed creation leaves every remaining record intact if and only if no ref was
      prepared, or no other record lies at the place of the id and the one just saved,
      if it was, has that id itself and is removed. */
  lemma FailureKeepsIntegrity(e: Setup, s: State, q: Request, fault: Fault)
    requires Separate(e) && AllIntact(e, s) && !Succeeds(q, fault)
    ensures AllIntact(e, Created(e, s, q, fault)) <==>
            PreparedPart(q, fault) == [] || ((Saves(q, fault) ==> Strip(q.id) == q.id) && Alone(e, s.meta, q.id))
  {
    var next, meta, safe := Created(e, s, q, fault), MetaAtFault(e, s, q, fault), PreparedPart(q, fault) == [];
    forall id | id in meta && id != q.id
      ensures OwnPaths(e, id, meta[id]) && (Intact(e, next, id) <==> safe || e.place(meta[id].given) != e.place(q.id))
    {
      OtherAfterFailure(e, s, q, fault, id);
    }
    AllIntactWithout(e, next, meta, q.id, safe);
    AloneAtFault(e, s, q, fault);
  }

  /** Every record stays intact whatever happens to a creation if and only if its id
      carries no surrounding blanks and no other record lies at its place. */
  lemma CreateKeepsIntegrity(e: Setup, s: State, q: Request)
    requires Separate(e) && AllIntact(e, s)
    requires Acceptable(q) && !Blank(q.id)
    ensures (forall fault :: AllIntact(e, Created(e, s, q, fault))) <==> Strip(q.id) == q.id && Alone(e, s.meta, q.id)
  {
    if Strip(q.id) == q.id && Alone(e, s.meta, q.id) {
      forall fault ensures AllIntact(e, Created(e, s, q, fault)) {
        CreateAloneKeepsIntegrity(e, s, q, fault);
      }
    } else {
      FailedMoveBreaks(e, s, q);
      assert !AllIntact(e, Created(e, s, q, InReplace(0)));
    }
  }

  lemma CreateAloneKeepsIntegrity(e: Setup, s: State, q: Request, fault: Fault)
    requires Separate(e) && AllIntact(e, s)
    requires Blank(q.id) || (Strip(q.id) == q.id && Alone(e, s.meta, q.id))
    ensures AllIntact(e, Created(e, s, q, fault))
  {
    if Succeeds(q, fault) {
      SuccessAloneKeepsIntegrity(e, s, q, fault);
    } else {
      BlankPreparesNothing(q, fault);
      FailureKeepsIntegrity(e, s, q, fault);
    }
  }

  lemma BlankPreparesNothing(q: Request, fault: Fault)
    ensures Blank(q.id) ==> PreparedPart(q, fault) == []
  {
  }

  lemma SuccessAloneKeepsIntegrity(e: Setup, s: State, q: Request, fault: Fault)
    requires Separate(e) && AllIntact(e, s) && Succeeds(q, fault)
    requires Strip(q.id) == q.id && Alone(e, s.meta, q.id)
    ensures AllIntact(e, Created(e, s, q, fault))
  {
    SuccessKeepsIntegrity(e, s, q, fault);
  }

  lemma FailedMoveBreaks(e: Setup, s: State, q: Request)
    requires Separate(e) && AllIntact(e, s)
    requires Acceptable(q) && !Blank(q.id) && (Strip(q.id) == q.id ==> !Alone(e, s.meta, q.id))
    ensures !AllIntact(e, Created(e, s, q, InReplace(0)))
  {
    PreparedStart(q, InReplace(0));
    FailureKeepsIntegrity(e, s, q, InReplace(0));
  }

  /** The id " a" is saved as "a" and deleted as " a": when moving its first file
      fails, the record stays and its files are gone. */
  lemma UntrimmedIdIsLeft(e: Setup, s: State, q: Request)
    requires Separate(e) && AllIntact(e, s) && Acceptable(q) && q.id == " a"
    ensures var next := Created(e, s, q, InReplace(0));
      "a" in next.meta && e.final(" a", FinalResponse) !in next.files && !Intact(e, next, "a")
  {
    StripSome();
    PreparedStart(q, InReplace(0));
    OtherAfterFailure(e, s, q, InReplace(0), "a");
    PathsApart(e, " a", " a", PreparedPart(q, InReplace(0)), FinalResponse);
  }

  lemma StripSome()
    ensures Strip(" a") == "a" && Strip("./a") == "./a"
  {
    assert " a"[1..] == "a" && Strip("a") == "a";
  }

  /** The ids "./a" and "a" share their files: a failed creation of the one removes
      those of the other. */
  lemma DotIdBreaks(refs: Path, digest: string -> string, s: State, q: Request)
    requires AllIntact(Jsonl(refs, digest), s) && Acceptable(q) && q.id == "./a"
    requires "a" in s.meta && s.meta["a"].given == "a"
    ensures !AllIntact(Jsonl(refs, digest), Created(Jsonl(refs, digest), s, q, InReplace(0)))
  {
    DotIdShares(refs, digest);
    StripSome();
    SharedPlaceFails(Jsonl(refs, digest), s, q, "a");
  }

  lemma DotIdShares(refs: Path, digest: string -> string)
    ensures Separate(Jsonl(refs, digest)) && Jsonl(refs, digest).place("./a") == Jsonl(refs, digest).place("a")
  {
    JsonlIsSeparate(refs, digest);
    DotSharesPlace(refs, "a");
    assert "." + "/" + "a" == "./a";
  }

  lemma SharedPlaceFails(e: Setup, s: State, q: Request, other: string)
    requires Separate(e) && AllIntact(e, s) && Acceptable(q) && Strip(q.id) == q.id != ""
    requires other in s.meta && s.meta[other].given == other != q.id && e.place(other) == e.place(q.id)
    ensures !AllIntact(e, Created(e, s, q, InReplace(0)))
  {
    FailedMoveBreaks(e, s, q);
  }

  // ---------- rollback ----------

  /** A failed creation leaves metadata and files as they were, apart from a temporary
      file of the ref being prepared, if and only if none of the prepared files existed
      and the metadata survives. */
  lemma FailureRestores(e: Setup, s: State, q: Request, fault: Fault)
    requires Separate(e)
    requires !Succeeds(q, fault)
    ensures Created(e, s, q, fault) == State(s.files + Leftover(e, q, fault), s.meta) <==>
            && MetaSurvives(e, s, q, fault)
            && (forall p :: p in Temps(e, q.id, PreparedPart(q, fault)) + Finals(e, q.id, PreparedPart(q, fault)) ==>
                  p !in s.files)
    ensures Leftover(e, q, fault) != map[] ==> Effective(q, fault).InPrepare?
  {
    var done, extra := PreparedPart(q, fault), Leftover(e, q, fault);
    var gone := Temps(e, q.id, done) + Finals(e, q.id, done);
    FailureKeepsMetadata(e, s, q, fault);
    PayloadsDistinct(q);
    forall p | p in extra ensures p !in gone {
    }
    var after := Created(e, s, q, fault).files;
    Subtract(s.files + extra, Temps(e, q.id, done), Finals(e, q.id, done));
    assert after == (s.files + extra) - gone;
    if forall p :: p in gone ==> p !in s.files {
      assert after == s.files + extra;
    }
    if after == s.files + extra {
      forall p | p in gone ensures p !in s.files {
        assert p !in after;
      }
    }
  }

  /** The id as given has no record, and a record already saved under another id was
      there before. */
  predicate MetaSurvives(e: Setup, s: State, q: Request, fault: Fault) {
    && q.id !in s.meta
    && (Saves(q, fault) && Strip(q.id) != q.id ==>
          Strip(q.id) in s.meta && s.meta[Strip(q.id)] == EvidenceFor(e, q))
  }

  /** A failed creation keeps the metadata exactly then. */
  lemma FailureKeepsMetadata(e: Setup, s: State, q: Request, fault: Fault)
    requires !Succeeds(q, fault)
    ensures Created(e, s, q, fault).meta == s.meta <==> MetaSurvives(e, s, q, fault)
  {
    var after := Created(e, s, q, fault).meta;
    if after == s.meta {
      assert q.id !in after;
      if Saves(q, fault) && Strip(q.id) != q.id {
        assert Strip(q.id) in after && after[Strip(q.id)] == EvidenceFor(e, q);
      }
    }
  }

  // ---------- cleanup ----------

  function Expired(s: State, ownerId: string, cutoff: int): set<string> {
    set id | id in s.meta && s.meta[id].ownerId == ownerId && s.meta[id].createdAt < cutoff
  }

  function PathsOf(refs: seq<Ref>): set<Path> {
    set k | 0 <= k < |refs| :: refs[k].path
  }

  function AllPaths(s: State, ids: set<string>): set<Path> {
    set id, k | id in ids && id in s.meta && 0 <= k < |s.meta[id].refs| :: s.meta[id].refs[k].path
  }

  function Cleaned(s: State, ids: set<string>): State {
    State(s.files - AllPaths(s, ids), s.meta - ids)
  }

  lemma CleanOne(s: State, done: set<string>, id: string)
    requires id in s.meta && id !in done
    ensures var mid := Cleaned(s, done);
      && id in mid.meta && mid.meta[id] == s.meta[id]
      && State(mid.files - PathsOf(mid.meta[id].refs), mid.meta - {id}) == Cleaned(s, done + {id})
  {
    assert AllPaths(s, done + {id}) == AllPaths(s, done) + PathsOf(s.meta[id].refs);
  }

  lemma PathsOfNext(refs: seq<Ref>, k: nat)
    requires k < |refs|
    ensures PathsOf(refs[..k + 1]) == PathsOf(refs[..k]) + {refs[k].path}
  {
    var next, front := refs[..k + 1], refs[..k];
    assert next[k] == refs[k] && forall i :: 0 <= i < k ==> next[i] == front[i];
    forall p | p in PathsOf(front) ensures p in PathsOf(next) {
      var i :| 0 <= i < k && front[i].path == p;
      assert next[i].path == p;
    }
    assert next[k].path in PathsOf(next);
  }

  /** None of the operations that remove the record raises. */
  ghost predicate Removable(s: State, id: string, raises: (string, nat) -> bool) {
    id in s.meta && forall k: nat :: k <= |s.meta[id].refs| ==> !raises(id, k)
  }

  /** Cleanup has removed the records in `done` and the first `k` files of `id`. */
  function Stopped(s: State, done: set<string>, id: string, k: nat): State
    requires id in s.meta && k <= |s.meta[id].refs|
  {
    State(Cleaned(s, done).files - PathsOf(s.meta[id].refs[..k]), Cleaned(s, done).meta)
  }

  ghost predicate StopsAt(s: State, gone: set<string>, done: set<string>, id: string, k: nat,
                          raises: (string, nat) -> bool, now: State)
  {
    && done <= gone && id in gone - done && id in s.meta && k <= |s.meta[id].refs| && raises(id, k)
    && now == Stopped(s, done, id, k)
  }

  ghost predicate StoppedAmong(s: State, gone: set<string>, raises: (string, nat) -> bool, now: State) {
    exists done, id, k: nat :: StopsAt(s, gone, done, id, k, raises, now)
  }

  /** The cleanup loop with these records left. */
  ghost predicate Cleaning(s: State, gone: set<string>, left: set<string>, raises: (string, nat) -> bool, now: State) {
    && left <= gone <= s.meta.Keys && now == Cleaned(s, gone - left)
    && forall id :: id in gone - left ==> Removable(s, id, raises)
  }

  lemma CleaningStep(s: State, gone: set<string>, left: set<string>, id: string, raises: (string, nat) -> bool,
                     now: State)
    requires Cleaning(s, gone, left, raises, now) && id in left
    ensures id in now.meta && now.meta[id] == s.meta[id]
    ensures Removable(now, id, raises) <==> Removable(s, id, raises)
    ensures Removable(s, id, raises) ==>
      Cleaning(s, gone, left - {id}, raises, State(now.files - PathsOf(s.meta[id].refs), now.meta - {id}))
  {
    assert gone - (left - {id}) == (gone - left) + {id};
    CleanOne(s, gone - left, id);
  }

  lemma CleaningStops(s: State, gone: set<string>, left: set<string>, id: string, k: nat,
                      raises: (string, nat) -> bool, now: State)
    requires Cleaning(s, gone, left, raises, now) && id in left && k <= |s.meta[id].refs| && raises(id, k)
    ensures StoppedAmong(s, gone, raises, State(now.files - PathsOf(s.meta[id].refs[..k]), now.meta))
    ensures !Removable(s, id, raises)
  {
    assert StopsAt(s, gone, gone - left, id, k, raises,
                   State(now.files - PathsOf(s.meta[id].refs[..k]), now.meta));
  }

  /** No record to remove lies at the place of one to keep. */
  ghost predicate Detached(e: Setup, s: State, ids: set<string>) {
    forall gone, id :: gone in s.meta && gone in ids && id in s.meta && id !in ids ==>
      e.place(s.meta[gone].given) != e.place(s.meta[id].given)
  }

  lemma KeptAfterCleanup(e: Setup, s: State, ids: set<string>, id: string)
    requires Separate(e) && AllIntact(e, s)
    requires id in s.meta && id !in ids
    requires forall gone :: gone in s.meta && gone in ids ==> e.place(s.meta[gone].given) != e.place(s.meta[id].given)
    ensures Intact(e, Cleaned(s, ids), id)
  {
    var next, refs := Cleaned(s, ids), s.meta[id].refs;
    assert OwnPaths(e, id, s.meta[id]) && Intact(e, s, id);
    forall k | 0 <= k < |refs| ensures RefIntact(e, next.files, refs[k]) {
      assert RefIntact(e, s.files, refs[k]);
      forall gone, j | gone in ids && gone in s.meta && 0 <= j < |s.meta[gone].refs|
        ensures s.meta[gone].refs[j].path != refs[k].path
      {
        assert OwnPaths(e, gone, s.meta[gone]);
      }
    }
  }

  /** Cleaning up some records keeps the others intact if and only if none of them
      shares its place with a removed one. */
  lemma CleanupKeepsIntegrity(e: Setup, s: State, ids: set<string>)
    requires Separate(e) && AllIntact(e, s)
    ensures AllIntact(e, Cleaned(s, ids)) <==> Detached(e, s, ids)
  {
    var next := Cleaned(s, ids);
    if Detached(e, s, ids) {
      forall id | id in next.meta ensures Intact(e, next, id) {
        KeptAfterCleanup(e, s, ids, id);
      }
    } else {
      var gone, id :| gone in s.meta && gone in ids && id in s.meta && id !in ids
                      && e.place(s.meta[gone].given) == e.place(s.meta[id].given);
      assert OwnPaths(e, id, s.meta[id]) && OwnPaths(e, gone, s.meta[gone]);
      assert s.meta[gone].refs[0].path == s.meta[id].refs[0].path;
      assert s.meta[gone].refs[0].path in AllPaths(s, ids);
      assert !RefIntact(e, next.files, next.meta[id].refs[0]);
    }
  }

  /** A cleanup that stops leaves every remaining record intact if and only if it had
      not begun to remove the files of the record it stopped at, and none shares its
      place with a removed one. */
  lemma StoppedKeepsIntegrity(e: Setup, s: State, done: set<string>, id: string, k: nat)
    requires Separate(e) && AllIntact(e, s)
    requires id in s.meta && id !in done && k <= |s.meta[id].refs|
    ensures AllIntact(e, Stopped(s, done, id, k)) <==> k == 0 && Detached(e, s, done)
  {
    var refs := s.meta[id].refs;
    if k == 0 {
      assert Stopped(s, done, id, 0) == Cleaned(s, done);
      CleanupKeepsIntegrity(e, s, done);
    } else {
      var next := Stopped(s, done, id, k);
      assert refs[..k][0] == refs[0] && refs[0].path in PathsOf(refs[..k]);
      assert id in next.meta && next.meta[id] == s.meta[id];
      assert !RefIntact(e, next.files, refs[0]);
    }
  }

  /** Cleaning up again, then or later, ends as if the first cleanup had not stopped. */
  lemma CleanupResumes(s: State, ownerId: string, cutoff: int, later: int, done: set<string>, id: string, k: nat)
    requires cutoff <= later && done + {id} <= Expired(s, ownerId, cutoff)
    requires id !in done && k <= |s.meta[id].refs|
    ensures var mid := Stopped(s, done, id, k);
      Cleaned(mid, Expired(mid, ownerId, later)) == Cleaned(s, Expired(s, ownerId, later))
  {
    var mid, all := Stopped(s, done, id, k), Expired(s, ownerId, later);
    var rest := Expired(mid, ownerId, later);
    assert rest == all - done;
    forall p | p in PathsOf(s.meta[id].refs[..k]) ensures p in AllPaths(s, {id}) {
      var j :| 0 <= j < k && s.meta[id].refs[..k][j].path == p;
      assert s.meta[id].refs[j].path == p;
    }
    AllPathsJoin(s, done, rest);
    AllPathsJoin(s, rest, {id});
    assert AllPaths(mid, rest) == AllPaths(s, rest);
    assert done + rest == all && rest + {id} == rest;
  }

  lemma AllPathsJoin(s: State, a: set<string>, b: set<string>)
    ensures AllPaths(s, a + b) == AllPaths(s, a) + AllPaths(s, b)
  {
  }

  // ---------- runs ----------

  /** A creation under its id, given or generated, or a cleanup. */
  datatype Step = Create(request: Request, fault: Fault) | Cleanup(ownerId: string, cutoff: int)

  function Next(e: Setup, s: State, step: Step): State {
    match step
    case Create(q, fault) => Created(e, s, q, fault)
    case Cleanup(owner, cutoff) => Cleaned(s, Expired(s, owner, cutoff))
  }

  function Run(e: Setup, steps: seq<Step>): State {
    if steps == [] then State(map[], map[])
    else Next(e, Run(e, steps[..|steps| - 1]), steps[|steps| - 1])
  }

  /** The creations are given these ids. */
  ghost predicate Uses(steps: seq<Step>, ids: iset<string>) {
    forall i :: 0 <= i < |steps| && steps[i].Create? ==> steps[i].request.id in ids
  }

  /** Ids without surrounding blanks, each with a place of its own; blank ones are refused. */
  ghost predicate Tidy(e: Setup, ids: iset<string>) {
    && (forall id :: id in ids && !Blank(id) ==> Strip(id) == id)
    && (forall id, id' :: id in ids && id' in ids && !Blank(id) && !Blank(id') && e.place(id) == e.place(id') ==>
          id == id')
  }

  /** Every record lies under its own id. */
  ghost predicate AtHome(s: State, ids: iset<string>) {
    forall id :: id in s.meta ==> id in ids && !Blank(id) && s.meta[id].given == id
  }

  lemma TidyIsAlone(e: Setup, s: State, id: string, ids: iset<string>)
    requires Tidy(e, ids) && AtHome(s, ids) && id in ids && !Blank(id)
    ensures Strip(id) == id && Alone(e, s.meta, id)
  {
  }

  lemma CreatedAtHome(e: Setup, s: State, q: Request, fault: Fault, ids: iset<string>)
    requires AtHome(s, ids) && q.id in ids && (Blank(q.id) || Strip(q.id) == q.id)
    ensures AtHome(Created(e, s, q, fault), ids)
  {
    assert EvidenceFor(e, q).given == q.id;
  }

  lemma StepStaysTidy(e: Setup, s: State, step: Step, ids: iset<string>)
    requires Separate(e) && Tidy(e, ids) && (step.Create? ==> step.request.id in ids)
    requires AllIntact(e, s) && AtHome(s, ids)
    ensures AllIntact(e, Next(e, s, step)) && AtHome(Next(e, s, step), ids)
  {
    match step {
      case Create(q, fault) =>
        if !Blank(q.id) {
          TidyIsAlone(e, s, q.id, ids);
        }
        CreateAloneKeepsIntegrity(e, s, q, fault);
        CreatedAtHome(e, s, q, fault, ids);
      case Cleanup(owner, cutoff) => CleanupKeepsIntegrity(e, s, Expired(s, owner, cutoff));
    }
  }

  lemma {:induction false} TidyRunKeepsIntegrity(e: Setup, steps: seq<Step>, ids: iset<string>)
    requires Separate(e) && Tidy(e, ids) && Uses(steps, ids)
    ensures AllIntact(e, Run(e, steps)) && AtHome(Run(e, steps), ids)
  {
    if steps != [] {
      TidyRunKeepsIntegrity(e, steps[..|steps| - 1], ids);
      StepStaysTidy(e, Run(e, steps[..|steps| - 1]), steps[|steps| - 1], ids);
    }
  }

  function Sample(id: string): Request {
    Request(id, "o", "s", "q", "", "", None, None, None, 0)
  }

  lemma SampleIsAcceptable(id: string)
    ensures Acceptable(Sample(id))
  {
    assert Strip("o") == "o" && Strip("s") == "s" && Strip("q") == "q";
  }

  lemma FailedMoveOnly(e: Setup, id: string)
    requires Separate(e) && !Blank(id) && Strip(id) != id
    ensures !AllIntact(e, Run(e, [Create(Sample(id), InReplace(0))]))
  {
    var step := Create(Sample(id), InReplace(0));
    SampleIsAcceptable(id);
    FailedMoveBreaks(e, State(map[], map[]), Sample(id));
    assert [step][..0] == [] && Run(e, []) == State(map[], map[]);
  }

  lemma SharedPlaceBreaks(e: Setup, id: string, id': string)
    requires Separate(e) && !Blank(id) && !Blank(id') && Strip(id) == id && Strip(id') == id'
    requires id != id' && e.place(id) == e.place(id')
    ensures !AllIntact(e, Run(e, [Create(Sample(id), NoFault), Create(Sample(id'), InReplace(0))]))
  {
    var first, second := Create(Sample(id), NoFault), Create(Sample(id'), InReplace(0));
    SampleIsAcceptable(id);
    SampleIsAcceptable(id');
    var start := State(map[], map[]);
    var s := Created(e, start, Sample(id), NoFault);
    CreateAloneKeepsIntegrity(e, start, Sample(id), NoFault);
    assert id in s.meta && s.meta[id].given == id;
    SharedPlaceFails(e, s, Sample(id'), id);
    assert [first][..0] == [] && [first, second][..1] == [first] && Run(e, []) == start;
    assert Run(e, [first]) == s;
  }

  /** Every record is intact after every run of creations with the given ids, failing
      anywhere, and cleanups, if and only if the ids are tidy. */
  lemma RunsKeepIntegrity(e: Setup, ids: iset<string>)
    requires Separate(e)
    ensures (forall steps :: Uses(steps, ids) ==> AllIntact(e, Run(e, steps))) <==> Tidy(e, ids)
  {
    if Tidy(e, ids) {
      forall steps | Uses(steps, ids) ensures AllIntact(e, Run(e, steps)) {
        TidyRunKeepsIntegrity(e, steps, ids);
      }
    } else if id :| id in ids && !Blank(id) && Strip(id) != id {
      var steps := [Create(Sample(id), InReplace(0))];
      FailedMoveOnly(e, id);
      assert Uses(steps, ids) && !AllIntact(e, Run(e, steps));
    } else {
      var id, id' :| id in ids && id' in ids && !Blank(id) && !Blank(id') && e.place(id) == e.place(id') && id != id';
      var steps := [Create(Sample(id), NoFault), Create(Sample(id'), InReplace(0))];
      SharedPlaceBreaks(e, id, id');
      assert Uses(steps, ids) && !AllIntact(e, Run(e, steps));
    }
  }

  /** So it is in the refs directory for ids without slashes and surrounding blanks,
      such as generated ones. */
  lemma PlainRunsKeepIntegrity(refs: Path, digest: string -> string, steps: seq<Step>)
    requires forall i :: 0 <= i < |steps| && steps[i].Create? ==>
      '/' !in steps[i].request.id && Strip(steps[i].request.id) == steps[i].request.id
    ensures AllIntact(Jsonl(refs, digest), Run(Jsonl(refs, digest), steps))
  {
    var e, ids := Jsonl(refs, digest), iset id | '/' !in id && Strip(id) == id;
    JsonlIsSeparate(refs, digest);
    forall id | id in ids ensures e.place(id) == Place(refs, id) {
      PlainPlace(refs, id);
    }
    TidyRunKeepsIntegrity(e, steps, ids);
  }
}
