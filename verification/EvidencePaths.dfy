/** Where the raw payload files of an evidence id lie. */
module EvidencePaths {
  datatype RefType = FinalResponse | PastSteps | KeyEvents | ToolResults | MemoryObservation

  function NameOf(t: RefType): string {
    match t
    case FinalResponse => "final_response"
    case PastSteps => "past_steps"
    case KeyEvents => "key_events"
    case ToolResults => "tool_results"
    case MemoryObservation => "memory_observation"
  }

  /** The segments of a path from the root. */
  type Path = seq<string>

  /** The texts between the slashes. */
  function Segments(name: string): (parts: seq<string>)
    ensures |parts| > 0
  {
    if name == "" then [""]
    else
      var front, c := Segments(name[..|name| - 1]), name[|name| - 1];
      if c == '/' then front + [""] else Extended(front, [c])
  }

  /** The last text goes on with the suffix. */
  function Extended(parts: seq<string>, suffix: string): seq<string>
    requires |parts| > 0
  {
    parts[..|parts| - 1] + [parts[|parts| - 1] + suffix]
  }

  function Enter(at: Path, segment: string): Path {
    if segment == "" || segment == "." then at
    else if segment != ".." then at + [segment]
    else if at == [] then [] else at[..|at| - 1]
  }

  function Walk(at: Path, segments: seq<string>): Path {
    if segments == [] then at else Enter(Walk(at, segments[..|segments| - 1]), segments[|segments| - 1])
  }

  /** Where the file is that joining a name to the directory denotes; an absolute
      name replaces the directory. */
  function Join(refs: Path, name: string): Path {
    Walk(if Absolute(name) then [] else refs, Segments(name))
  }

  predicate Absolute(name: string) {
    name != "" && name[0] == '/'
  }

  function Suffix(t: RefType): string {
    "_" + NameOf(t) + ".jsonl"
  }

  function FinalPath(refs: Path, id: string, t: RefType): Path {
    Join(refs, id + Suffix(t))
  }

  function TempPath(refs: Path, id: string, t: RefType): Path {
    Join(refs, id + (Suffix(t) + ".tmp"))
  }

  /** The folder and the beginning of the file names of an id. */
  datatype Place = Place(folder: Path, name: string)

  function PlaceOf(refs: Path, id: string): Place {
    var parts := Segments(id);
    Place(Walk(if Absolute(id) then [] else refs, parts[..|parts| - 1]), parts[|parts| - 1])
  }

  lemma ExtendedAgain(parts: seq<string>, x: string, y: string)
    requires |parts| > 0
    ensures Extended(Extended(parts, x), y) == Extended(parts, x + y)
    ensures Extended(parts, "") == parts
  {
    var last := parts[|parts| - 1];
    assert (last + x) + y == last + (x + y);
    assert last + "" == last;
  }

  lemma {:induction false} SegmentsOfWhole(id: string, suffix: string, whole: string)
    requires whole == id + suffix && '/' !in suffix
    ensures Segments(whole) == Extended(Segments(id), suffix)
  {
    if suffix == "" {
      ExtendedAgain(Segments(id), "", "");
      assert whole == id;
    } else {
      var front, c := suffix[..|suffix| - 1], suffix[|suffix| - 1];
      assert whole[..|whole| - 1] == id + front && whole[|whole| - 1] == c;
      assert suffix == front + [c];
      SegmentsOfWhole(id, front, whole[..|whole| - 1]);
      ExtendedAgain(Segments(id), front, [c]);
    }
  }

  lemma SegmentsWithSuffix(id: string, suffix: string)
    requires '/' !in suffix
    ensures Segments(id + suffix) == Extended(Segments(id), suffix)
  {
    SegmentsOfWhole(id, suffix, id + suffix);
  }

  lemma WalkInto(at: Path, front: seq<string>, last: string)
    requires |last| > 2
    ensures Walk(at, front + [last]) == Walk(at, front) + [last]
  {
    assert (front + [last])[..|front|] == front;
  }

  lemma AbsoluteWithSuffix(id: string, suffix: string)
    requires '/' !in suffix
    ensures Absolute(id + suffix) == Absolute(id)
  {
    if id == "" && suffix != "" {
      assert suffix[0] in suffix && id + suffix == suffix;
    }
  }

  /** A suffix without slashes joins the name, in the folder of the id. */
  lemma JoinAtPlace(refs: Path, id: string, suffix: string)
    requires '/' !in suffix && |suffix| > 2
    ensures Join(refs, id + suffix) == PlaceOf(refs, id).folder + [PlaceOf(refs, id).name + suffix]
  {
    var parts := Segments(id);
    SegmentsWithSuffix(id, suffix);
    AbsoluteWithSuffix(id, suffix);
    WalkInto(if Absolute(id) then [] else refs, parts[..|parts| - 1], parts[|parts| - 1] + suffix);
  }

  lemma NoSlash(t: RefType)
    ensures '/' !in Suffix(t) && '/' !in Suffix(t) + ".tmp" && |Suffix(t)| > 2
  {
    assert '/' !in NameOf(t);
    assert '/' !in "_" && '/' !in ".jsonl" && '/' !in ".tmp";
  }

  lemma NamesDifferAtTheEnd(t: RefType, u: RefType)
    ensures |NameOf(t)| >= 4 && |NameOf(u)| >= 4
    ensures t == u <==> NameOf(t)[|NameOf(t)| - 4..] == NameOf(u)[|NameOf(u)| - 4..]
  {
    assert "final_response"[10..] == "onse" && "past_steps"[6..] == "teps" && "key_events"[6..] == "ents";
    assert "tool_results"[8..] == "ults" && "memory_observation"[14..] == "tion";
    assert "onse"[0] == 'o' && "teps"[0] == 't' && "ents"[0] == 'e' && "ults"[0] == 'u' && "tion"[0] == 't';
    assert "teps"[1] == 'e' && "tion"[1] == 'i';
  }

  lemma Regroup(a: string, b: string, c: string, d: string)
    ensures a + (b + c + d) == a + b + c + d
  {
  }

  lemma FileNameInjective(id: string, t: RefType, id': string, t': RefType)
    ensures id + Suffix(t) == id' + Suffix(t') <==> id == id' && t == t'
  {
    if id + Suffix(t) == id' + Suffix(t') {
      NamesDifferAtTheEnd(t, t');
      Regroup(id, "_", NameOf(t), ".jsonl");
      Regroup(id', "_", NameOf(t'), ".jsonl");
      SameEnds(id, NameOf(t), id', NameOf(t'));
    }
  }

  /** Equal file names end alike, and with equal types have equal ids. */
  lemma SameEnds(id: string, name: string, id': string, name': string)
    requires |name| >= 4 && |name'| >= 4 && id + "_" + name + ".jsonl" == id' + "_" + name' + ".jsonl"
    ensures name[|name| - 4..] == name'[|name'| - 4..]
    ensures name == name' ==> id == id'
  {
    var a, b := id + "_" + name, id' + "_" + name';
    SuffixIsSame(a, b, ".jsonl");
    assert a[|a| - 4..] == name[|name| - 4..] && b[|b| - 4..] == name'[|name'| - 4..];
    if name == name' {
      SuffixIsSame(id + "_", id' + "_", name);
      SuffixIsSame(id, id', "_");
    }
  }

  lemma SuffixIsSame(a: string, b: string, suffix: string)
    ensures a + suffix == b + suffix <==> a == b
  {
    assert (a + suffix)[..|a + suffix| - |suffix|] == a && (b + suffix)[..|b + suffix| - |suffix|] == b;
  }

  lemma LastSegment(a: Path, x: string, b: Path, y: string)
    ensures a + [x] == b + [y] <==> a == b && x == y
  {
    assert (a + [x])[..|a + [x]| - 1] == a && (b + [y])[..|b + [y]| - 1] == b;
  }

  lemma Endings(name: string, t: RefType)
    ensures name + (Suffix(t) + ".tmp") == (name + Suffix(t)) + ".tmp"
    ensures (name + Suffix(t))[|name + Suffix(t)| - 1] == 'l'
    ensures (name + (Suffix(t) + ".tmp"))[|name + Suffix(t)| + 3] == 'p'
  {
    assert ".jsonl"[5] == 'l' && ".tmp"[3] == 'p';
  }

  lemma NamesApart(name: string, t: RefType, name': string, t': RefType)
    ensures name + Suffix(t) == name' + Suffix(t') <==> name == name' && t == t'
    ensures name + (Suffix(t) + ".tmp") == name' + (Suffix(t') + ".tmp") <==> name == name' && t == t'
    ensures name + Suffix(t) != name' + (Suffix(t') + ".tmp")
  {
    Endings(name, t);
    Endings(name', t');
    FileNameInjective(name, t, name', t');
    SuffixIsSame(name + Suffix(t), name' + Suffix(t'), ".tmp");
  }

  /** Two files coincide exactly for the same place, type and kind. */
  lemma PathsInjective(refs: Path, id: string, t: RefType, id': string, t': RefType)
    ensures FinalPath(refs, id, t) == FinalPath(refs, id', t') <==> PlaceOf(refs, id) == PlaceOf(refs, id') && t == t'
    ensures TempPath(refs, id, t) == TempPath(refs, id', t') <==> PlaceOf(refs, id) == PlaceOf(refs, id') && t == t'
    ensures FinalPath(refs, id, t) != TempPath(refs, id', t')
  {
    NoSlash(t);
    NoSlash(t');
    PlacesDecide(refs, id, t, id', t', Suffix(t), Suffix(t'));
  }

  lemma PlacesDecide(refs: Path, id: string, t: RefType, id': string, t': RefType, end: string, end': string)
    requires end == Suffix(t) && end' == Suffix(t') && |end| > 2 && |end'| > 2
    requires '/' !in end && '/' !in end' && '/' !in end + ".tmp" && '/' !in end' + ".tmp"
    ensures Join(refs, id + end) == Join(refs, id' + end') <==> PlaceOf(refs, id) == PlaceOf(refs, id') && t == t'
    ensures Join(refs, id + (end + ".tmp")) == Join(refs, id' + (end' + ".tmp")) <==>
            PlaceOf(refs, id) == PlaceOf(refs, id') && t == t'
    ensures Join(refs, id + end) != Join(refs, id' + (end' + ".tmp"))
  {
    var place, place' := PlaceOf(refs, id), PlaceOf(refs, id');
    var name, name' := place.name, place'.name;
    NamesApart(name, t, name', t');
    JoinAtPlace(refs, id, end);
    JoinAtPlace(refs, id', end');
    JoinAtPlace(refs, id, end + ".tmp");
    JoinAtPlace(refs, id', end' + ".tmp");
    LastSegment(place.folder, name + end, place'.folder, name' + end');
    LastSegment(place.folder, name + (end + ".tmp"), place'.folder, name' + (end' + ".tmp"));
    LastSegment(place.folder, name + end, place'.folder, name' + (end' + ".tmp"));
  }

  lemma PlainSegments(name: string)
    requires '/' !in name
    ensures Segments(name) == [name]
  {
    SegmentsWithSuffix("", name);
    assert "" + name == name;
  }

  lemma SegmentsAfterSlash(front: string, name: string)
    requires '/' !in name
    ensures Segments(front + "/" + name) == Segments(front) + [name]
  {
    assert (front + "/")[..|front|] == front;
    assert Segments(front + "/") == Segments(front) + [""];
    SegmentsWithSuffix(front + "/", name);
    assert "" + name == name;
  }

  /** An id without a slash has a place of its own in the refs directory. */
  lemma PlainPlace(refs: Path, id: string)
    requires '/' !in id
    ensures PlaceOf(refs, id) == Place(refs, id)
  {
    PlainSegments(id);
  }

  lemma PlaceInFolder(refs: Path, folder: string, id: string)
    requires '/' !in id && folder != "" && folder[0] != '/'
    ensures PlaceOf(refs, folder + "/" + id) == Place(Walk(refs, Segments(folder)), id)
  {
    SegmentsAfterSlash(folder, id);
    var parts := Segments(folder);
    assert (parts + [id])[..|parts|] == parts;
    assert (folder + "/" + id)[0] == folder[0];
  }

  lemma WalkTwo(at: Path, x: string, y: string)
    ensures Walk(at, [x]) == Enter(at, x) && Walk(at, [x, y]) == Enter(Enter(at, x), y)
  {
    assert [x, y][..1] == [x] && [x][..0] == [];
  }

  /** Another id can share the place: a dot segment is dropped. */
  lemma DotSharesPlace(refs: Path, id: string)
    requires '/' !in id
    ensures PlaceOf(refs, "." + "/" + id) == PlaceOf(refs, id)
  {
    PlainPlace(refs, id);
    PlainSegments(".");
    PlaceInFolder(refs, ".", id);
    WalkTwo(refs, ".", ".");
  }

  /** Two dots lead out of the directory, and its name back. */
  lemma BackSharesPlace(refs: Path, folder: string, id: string)
    requires '/' !in folder && '/' !in id && folder != "" && folder != "." && folder != ".."
    ensures PlaceOf(refs + [folder], ".." + "/" + folder + "/" + id) == PlaceOf(refs + [folder], id)
  {
    var here := refs + [folder];
    PlainPlace(here, id);
    PlainSegments("..");
    SegmentsAfterSlash("..", folder);
    PlaceInFolder(here, ".." + "/" + folder, id);
    WalkTwo(here, "..", folder);
    assert here[..|here| - 1] == refs;
  }
}
