/** The dashboard's incremental server-sent-event parser.

    Frames end at a blank line (`\r?\n\r?\n`); text after the last blank line
    waits in the buffer.  Main results: the outcome does not depend on how the
    network cuts the stream, and an encoded stream is delivered message by
    message.  Characters stand for the code units of a JavaScript string. */
module SseParser {

  /** `[DONE]`, or the text of a frame's data lines.  Whether the text parses as
      JSON is a function of the text alone. */
  datatype Event = Done | Payload(text: string)

  // ---------- separators ----------

  /** Length of a line end `\r?\n` at `q`, or 0. */
  function LineEndAt(s: string, q: nat): (k: nat)
    ensures k > 0 ==> q + k <= |s| && k <= 2
  {
    if q < |s| && s[q] == '\n' then 1
    else if q + 1 < |s| && s[q] == '\r' && s[q + 1] == '\n' then 2
    else 0
  }

  /** Length of a separator `\r?\n\r?\n` at `q`, or 0. */
  function SepAt(s: string, q: nat): (k: nat)
    ensures k > 0 ==> q + k <= |s| && k <= 4
  {
    var a := LineEndAt(s, q);
    if a == 0 || LineEndAt(s, q + a) == 0 then 0 else a + LineEndAt(s, q + a)
  }

  /** The length of what a pattern matches at a position, or 0. */
  type Matcher = (string, nat) -> nat

  function LineEnds(): Matcher {
    (s, q) => LineEndAt(s, q)
  }

  function BlankLines(): Matcher {
    (s, q) => SepAt(s, q)
  }

  predicate Hit(m: Matcher, s: string, q: nat) {
    q <= |s| && 0 < m(s, q) <= |s| - q
  }

  /** `s.split(pattern)` from `start`; nothing matched in `s[start..i]`. */
  function SplitFrom(m: Matcher, s: string, start: nat, i: nat): (parts: seq<string>)
    requires start <= i <= |s|
    ensures parts != []
    decreases |s| - i
  {
    if i == |s| then [s[start..]]
    else if Hit(m, s, i) then [s[start..i]] + SplitFrom(m, s, i + m(s, i), i + m(s, i))
    else SplitFrom(m, s, start, i + 1)
  }

  function Split(m: Matcher, s: string): (parts: seq<string>)
    ensures parts != []
  {
    SplitFrom(m, s, 0, 0)
  }

  function Frames(s: string): seq<string> {
    var parts := Split(BlankLines(), s);
    parts[..|parts| - 1]
  }

  function Rest(s: string): string {
    var parts := Split(BlankLines(), s);
    parts[|parts| - 1]
  }

  // ---------- one frame ----------

  predicate IsSpace(c: char) {
    || '\t' <= c <= '\r' || c == ' ' || c == '\U{00A0}' || c == '\U{1680}' || '\U{2000}' <= c <= '\U{200A}'
    || c == '\U{2028}' || c == '\U{2029}' || c == '\U{202F}' || c == '\U{205F}' || c == '\U{3000}' || c == '\U{FEFF}'
  }

  function TrimStart(s: string): string {
    if s != "" && IsSpace(s[0]) then TrimStart(s[1..]) else s
  }

  predicate Blank(s: string) {
    forall k :: 0 <= k < |s| ==> IsSpace(s[k])
  }

  const DATA: string := "data:"

  function DataLines(lines: seq<string>): seq<string> {
    if lines == [] then []
    else (if DATA <= lines[0] then [TrimStart(lines[0][5..])] else []) + DataLines(lines[1..])
  }

  function Join(lines: seq<string>): string {
    if lines == [] then ""
    else if |lines| == 1 then lines[0]
    else lines[0] + "\n" + Join(lines[1..])
  }

  function EventOf(text: string): Event {
    if text == "[DONE]" then Done else Payload(text)
  }

  /** What one frame emits. */
  function FrameEvents(frame: string): seq<Event> {
    var data := DataLines(Split(LineEnds(), frame));
    if Blank(frame) || data == [] then [] else [EventOf(Join(data))]
  }

  function Emitted(frames: seq<string>): seq<Event> {
    if frames == [] then [] else FrameEvents(frames[0]) + Emitted(frames[1..])
  }

  // ---------- the parser ----------

  datatype State = State(buffer: string, events: seq<Event>)

  const INITIAL: State := State("", [])

  function Feed(s: State, chunk: string): State {
    var text := s.buffer + chunk;
    State(Rest(text), s.events + Emitted(Frames(text)))
  }

  /** A blank remainder is left in the buffer. */
  function Flush(s: State): State {
    if Blank(s.buffer) then s else State("", s.events + FrameEvents(s.buffer))
  }

  class Parser {
    var buffer: string
    var events: seq<Event>

    function Model(): State
      reads this
    {
      State(buffer, events)
    }

    constructor ()
      ensures Model() == INITIAL
    {
      buffer, events := "", [];
    }

    method EmitFrame(frame: string)
      requires !Blank(frame)
      modifies this`events
      ensures events == old(events) + FrameEvents(frame)
    {
      var dataLines := CollectData(Split(LineEnds(), frame));
      if |dataLines| == 0 {
        return;
      }
      var dataText := Join(dataLines);
      if dataText == "[DONE]" {
        events := events + [Done];
      } else {
        events := events + [Payload(dataText)];
      }
    }

    method CollectData(lines: seq<string>) returns (dataLines: seq<string>)
      ensures dataLines == DataLines(lines)
    {
      dataLines := [];
      assert lines[0..] == lines;
      for i := 0 to |lines|
        invariant Collecting(lines, i, dataLines)
      {
        DataStep(lines, i, dataLines);
        if DATA <= lines[i] {
          dataLines := dataLines + [TrimStart(lines[i][5..])];
        }
      }
    }

    method FeedChunk(chunk: string)
      modifies this
      ensures Model() == Feed(old(Model()), chunk)
    {
      buffer := buffer + chunk;
      var frames := Split(BlankLines(), buffer);
      buffer := frames[|frames| - 1];
      EmitFrames(frames[..|frames| - 1]);
    }

    method EmitFrames(frames: seq<string>)
      modifies this`events
      ensures events == old(events) + Emitted(frames)
    {
      ghost var all := old(events) + Emitted(frames);
      for i := 0 to |frames|
        invariant all == events + Emitted(frames[i..])
      {
        EmittedStep(events, frames, i);
        EmitUnlessBlank(frames[i]);
      }
    }

    method EmitUnlessBlank(frame: string)
      modifies this`events
      ensures events == old(events) + FrameEvents(frame)
    {
      if !Blank(frame) {
        EmitFrame(frame);
      }
    }

    method FlushBuffer()
      modifies this
      ensures Model() == Flush(old(Model()))
    {
      if !Blank(buffer) {
        EmitFrame(buffer);
        buffer := "";
      }
    }
  }

  lemma EmittedStep(events: seq<Event>, frames: seq<string>, i: nat)
    requires i < |frames|
    ensures events + Emitted(frames[i..]) == events + FrameEvents(frames[i]) + Emitted(frames[i + 1..])
  {
    assert frames[i..][1..] == frames[i + 1..];
  }

  /** The data loop before line `i`. */
  ghost predicate Collecting(lines: seq<string>, i: nat, done: seq<string>)
    requires i <= |lines|
  {
    DataLines(lines) == done + DataLines(lines[i..])
  }

  lemma DataStep(lines: seq<string>, i: nat, done: seq<string>)
    requires i < |lines| && Collecting(lines, i, done)
    ensures DATA <= lines[i] ==> Collecting(lines, i + 1, done + [TrimStart(lines[i][5..])])
    ensures !(DATA <= lines[i]) ==> Collecting(lines, i + 1, done)
  {
    assert lines[i..][0] == lines[i] && lines[i..][1..] == lines[i + 1..];
  }

  // ---------- chunk independence ----------

  /** Matching depends only on what follows. */
  ghost predicate Local(m: Matcher) {
    forall x: string, y: string, q: nat {:trigger m(y, q), x + y} :: m(x + y, |x| + q) == m(y, q)
  }

  lemma MatchersAreLocal()
    ensures Local(LineEnds()) && Local(BlankLines())
  {
    forall x: string, y: string, q: nat
      ensures LineEnds()(x + y, |x| + q) == LineEnds()(y, q)
      ensures BlankLines()(x + y, |x| + q) == BlankLines()(y, q)
    {
      assert forall k :: 0 <= k < |y| ==> (x + y)[|x| + k] == y[k];
    }
  }

  /** Adding `b` after `a` moves no match that lies in `a`. */
  ghost predicate Keeps(m: Matcher, a: string, b: string) {
    forall q: nat :: Hit(m, a, q) ==> m(a + b, q) == m(a, q)
  }

  /** A match that runs over the end of `a` is not preceded by a start in `a` of
      a match that lies in `a`. */
  ghost predicate CrossesLast(m: Matcher, a: string, b: string) {
    forall q: nat, r: nat :: q <= r && !Hit(m, a, q) && Hit(m, a + b, q) ==> !Hit(m, a, r)
  }

  /** What `a` has of a separator that crosses its end holds one line end only. */
  lemma BlankLinesCross(a: string, b: string)
    ensures Keeps(BlankLines(), a, b) && CrossesLast(BlankLines(), a, b)
  {
    forall q: nat | Hit(BlankLines(), a, q) ensures SepAt(a + b, q) == SepAt(a, q) {
    }
    forall q: nat, r: nat | q <= r && SepAt(a, q) == 0 && SepAt(a + b, q) > 0
      ensures !Hit(BlankLines(), a, r)
    {
      SepCrosses(a, b, q, r);
    }
  }

  lemma SepCrosses(a: string, b: string, q: nat, r: nat)
    requires SepAt(a, q) == 0 && SepAt(a + b, q) > 0 && q <= r
    ensures SepAt(a, r) == 0
  {
    assert forall k :: 0 <= k < |a| ==> (a + b)[k] == a[k];
    if q + LineEndAt(a + b, q) <= |a| {
      assert LineEndAt(a, q) == LineEndAt(a + b, q);
    }
  }

  lemma {:induction false} SplitShift(m: Matcher, x: string, y: string, start: nat, i: nat)
    requires Local(m) && start <= i <= |y|
    ensures SplitFrom(m, x + y, |x| + start, |x| + i) == SplitFrom(m, y, start, i)
    decreases |y| - i
  {
    assert (x + y)[|x| + start..] == y[start..];
    if i < |y| {
      assert (x + y)[|x| + start..|x| + i] == y[start..i];
      assert m(x + y, |x| + i) == m(y, i);
      if Hit(m, y, i) {
        SplitShift(m, x, y, i + m(y, i), i + m(y, i));
      } else {
        SplitShift(m, x, y, start, i + 1);
      }
    }
  }

  lemma {:induction false} SplitSkip(m: Matcher, s: string, start: nat, i: nat)
    requires start <= i <= |s|
    requires forall j: nat :: start <= j < i ==> !Hit(m, s, j)
    ensures SplitFrom(m, s, start, i) == SplitFrom(m, s, start, start)
    decreases i - start
  {
    if start < i {
      SplitSkip(m, s, start, i - 1);
    }
  }

  lemma {:induction false} SplitNothing(m: Matcher, s: string, start: nat, i: nat)
    requires start <= i <= |s|
    requires forall j: nat :: i <= j ==> !Hit(m, s, j)
    ensures SplitFrom(m, s, start, i) == [s[start..]]
    decreases |s| - i
  {
    if i < |s| {
      SplitNothing(m, s, start, i + 1);
    }
  }

  /** Splitting a longer stream: the parts already closed stay, and splitting goes
      on from the open part. */
  lemma {:induction false} SplitExtend(m: Matcher, a: string, b: string, start: nat, i: nat)
    requires Local(m) && Keeps(m, a, b) && CrossesLast(m, a, b)
    requires start <= i <= |a|
    requires forall j: nat :: start <= j < i ==> !Hit(m, a + b, j)
    ensures var parts := SplitFrom(m, a, start, i);
      SplitFrom(m, a + b, start, i) == parts[..|parts| - 1] + Split(m, parts[|parts| - 1] + b)
    decreases |a| - i
  {
    if i < |a| && Hit(m, a, i) {
      assert (a + b)[start..i] == a[start..i];
      SplitExtend(m, a, b, i + m(a, i), i + m(a, i));
    } else if i < |a| && !Hit(m, a + b, i) {
      SplitExtend(m, a, b, start, i + 1);
    } else {
      assert forall j: nat :: i <= j ==> !Hit(m, a, j);
      SplitNothing(m, a, start, i);
      SplitOpen(m, a, b, start, i);
    }
  }

  lemma SplitOpen(m: Matcher, a: string, b: string, start: nat, i: nat)
    requires Local(m) && start <= i <= |a|
    requires forall j: nat :: start <= j < i ==> !Hit(m, a + b, j)
    ensures SplitFrom(m, a + b, start, i) == Split(m, a[start..] + b)
  {
    SplitSkip(m, a + b, start, i);
    assert a + b == a[..start] + (a[start..] + b);
    SplitShift(m, a[..start], a[start..] + b, 0, 0);
  }

  lemma {:induction false} EmittedAppend(a: seq<string>, b: seq<string>)
    ensures Emitted(a + b) == Emitted(a) + Emitted(b)
  {
    if a == [] {
      assert a + b == b;
    } else {
      assert (a + b)[1..] == a[1..] + b;
      EmittedAppend(a[1..], b);
    }
  }

  /** The frames of a longer stream. */
  lemma FramesExtend(text: string, b: string)
    ensures Frames(text + b) == Frames(text) + Frames(Rest(text) + b)
    ensures Rest(text + b) == Rest(Rest(text) + b)
  {
    MatchersAreLocal();
    BlankLinesCross(text, b);
    SplitExtend(BlankLines(), text, b, 0, 0);
  }

  /** Feeding two chunks is feeding their concatenation. */
  lemma FeedTwo(s: State, a: string, b: string)
    ensures Feed(Feed(s, a), b) == Feed(s, a + b)
  {
    var text := s.buffer + a;
    assert text + b == s.buffer + (a + b);
    FramesExtend(text, b);
    EmittedTwo(s.events, Frames(text), Frames(Rest(text) + b));
  }

  lemma EmittedTwo(events: seq<Event>, a: seq<string>, b: seq<string>)
    ensures events + Emitted(a) + Emitted(b) == events + Emitted(a + b)
  {
    EmittedAppend(a, b);
  }

  function FeedAll(s: State, chunks: seq<string>): State
    decreases |chunks|
  {
    if chunks == [] then s else FeedAll(Feed(s, chunks[0]), chunks[1..])
  }

  function Stream(chunks: seq<string>): string {
    if chunks == [] then "" else chunks[0] + Stream(chunks[1..])
  }

  ghost predicate NoHit(m: Matcher, s: string) {
    forall j: nat :: !Hit(m, s, j)
  }

  /** No complete separator waits in the buffer. */
  ghost predicate Settled(s: State) {
    NoHit(BlankLines(), s.buffer)
  }

  lemma {:induction false} OpenPartHasNoHit(m: Matcher, s: string, start: nat, i: nat)
    requires Local(m) && start <= i <= |s|
    requires forall j: nat :: start <= j < i ==> !Hit(m, s, j)
    ensures var parts := SplitFrom(m, s, start, i);
      NoHit(m, parts[|parts| - 1])
    decreases |s| - i
  {
    if i == |s| {
      var x, y := s[..start], s[start..];
      assert s == x + y;
      forall j: nat ensures !Hit(m, y, j) {
        assert m(x + y, |x| + j) == m(y, j);
        assert !Hit(m, s, start + j);
      }
    } else if Hit(m, s, i) {
      OpenPartHasNoHit(m, s, i + m(s, i), i + m(s, i));
    } else {
      OpenPartHasNoHit(m, s, start, i + 1);
    }
  }

  lemma FeedSettles(s: State, chunk: string)
    ensures Settled(Feed(s, chunk))
  {
    MatchersAreLocal();
    OpenPartHasNoHit(BlankLines(), s.buffer + chunk, 0, 0);
  }

  /** However the stream is cut, the frames emitted and the text left waiting are
      those of feeding it in one piece. */
  lemma {:induction false} ChunkIndependence(s: State, chunks: seq<string>)
    requires Settled(s)
    ensures FeedAll(s, chunks) == Feed(s, Stream(chunks))
    ensures Settled(FeedAll(s, chunks))
    decreases |chunks|
  {
    if chunks == [] {
      assert s.buffer + "" == s.buffer;
      SplitNothing(BlankLines(), s.buffer, 0, 0);
    } else {
      FeedSettles(s, chunks[0]);
      ChunkIndependence(Feed(s, chunks[0]), chunks[1..]);
      FeedTwo(s, chunks[0], Stream(chunks[1..]));
    }
  }

  /** Two ways of cutting one stream agree, also after the final flush. */
  lemma AnyTwoCutsAgree(chunks: seq<string>, other: seq<string>)
    requires Stream(chunks) == Stream(other)
    ensures FeedAll(INITIAL, chunks) == FeedAll(INITIAL, other)
    ensures Flush(FeedAll(INITIAL, chunks)) == Flush(FeedAll(INITIAL, other))
  {
    ChunkIndependence(INITIAL, chunks);
    ChunkIndependence(INITIAL, other);
  }

  // ---------- delivery ----------

  predicate OneLine(s: string) {
    forall k :: 0 <= k < |s| ==> s[k] != '\n' && s[k] != '\r'
  }

  /** A message: one or more lines without line ends. */
  predicate Message(lines: seq<string>) {
    lines != [] && forall k :: 0 <= k < |lines| ==> OneLine(lines[k])
  }

  predicate NewLine(nl: string) {
    nl == "\n" || nl == "\r\n"
  }

  /** One data line per line of the message. */
  function FrameOf(nl: string, lines: seq<string>): string
    requires lines != []
  {
    if |lines| == 1 then DATA + lines[0]
    else DATA + lines[0] + nl + FrameOf(nl, lines[1..])
  }

  function Encode(nl: string, messages: seq<seq<string>>): string
    requires forall k :: 0 <= k < |messages| ==> Message(messages[k])
  {
    if messages == [] then ""
    else assert Message(messages[0]); FrameOf(nl, messages[0]) + (nl + nl) + Encode(nl, messages[1..])
  }

  function Trimmed(lines: seq<string>): seq<string> {
    if lines == [] then [] else [TrimStart(lines[0])] + Trimmed(lines[1..])
  }

  function Delivered(messages: seq<seq<string>>): seq<Event> {
    if messages == [] then [] else [EventOf(Join(Trimmed(messages[0])))] + Delivered(messages[1..])
  }

  lemma DataLineIsOneLine(line: string)
    requires OneLine(line)
    ensures OneLine(DATA + line)
  {
    assert forall k :: 0 <= k < |DATA + line| ==> (DATA + line)[k] == if k < 5 then DATA[k] else line[k - 5];
  }

  lemma FrameStart(nl: string, lines: seq<string>)
    requires lines != []
    ensures FrameOf(nl, lines) != "" && FrameOf(nl, lines)[0] == 'd'
  {
  }

  /** No line end starts inside one line. */
  lemma NoLineEndIn(head: string, tail: string, q: nat)
    requires OneLine(head) && q < |head|
    ensures !Hit(LineEnds(), head + tail, q) && !Hit(BlankLines(), head + tail, q)
  {
    assert (head + tail)[q] == head[q];
  }

  /** A line end before ordinary text is one line end, not a blank line. */
  lemma SingleLineEnd(nl: string, tail: string, q: nat)
    requires NewLine(nl) && q < |nl|
    requires tail == "" || (tail[0] != '\n' && tail[0] != '\r')
    ensures LineEnds()(nl + tail, 0) == |nl|
    ensures !Hit(BlankLines(), nl + tail, q)
  {
    assert forall k :: 0 <= k < |nl + tail| ==> (nl + tail)[k] == if k < |nl| then nl[k] else tail[k - |nl|];
  }

  lemma DoubleLineEnd(nl: string, tail: string)
    requires NewLine(nl)
    ensures BlankLines()(nl + nl + tail, 0) == |nl + nl|
  {
    var s := nl + nl + tail;
    assert forall k :: 0 <= k < |nl + nl| ==> s[k] == (nl + nl)[k];
  }

  /** No separator starts inside a line, its line end, or the first `n` characters
      of what follows if none starts there. */
  lemma LineHasNoSeparator(head: string, nl: string, next: string, n: nat, q: nat)
    requires OneLine(head) && NewLine(nl)
    requires next == "" || (next[0] != '\n' && next[0] != '\r')
    requires forall j: nat :: j < n ==> !Hit(BlankLines(), next, j)
    requires q < |head| + |nl| + n
    ensures !Hit(BlankLines(), head + (nl + next), q)
  {
    if q < |head| {
      NoLineEndIn(head, nl + next, q);
    } else {
      MatchersAreLocal();
      HitShift(BlankLines(), head, nl + next, q - |head|);
      AfterLineEnd(nl, next, n, q - |head|);
    }
  }

  lemma AfterLineEnd(nl: string, next: string, n: nat, q: nat)
    requires NewLine(nl) && (next == "" || (next[0] != '\n' && next[0] != '\r'))
    requires forall j: nat :: j < n ==> !Hit(BlankLines(), next, j)
    requires q < |nl| + n
    ensures !Hit(BlankLines(), nl + next, q)
  {
    if q < |nl| {
      SingleLineEnd(nl, next, q);
    } else {
      MatchersAreLocal();
      HitShift(BlankLines(), nl, next, q - |nl|);
    }
  }

  /** No separator starts inside a frame. */
  lemma {:induction false} FrameHasNoSeparator(nl: string, lines: seq<string>, tail: string, q: nat)
    requires NewLine(nl) && Message(lines) && q < |FrameOf(nl, lines)|
    ensures !Hit(BlankLines(), FrameOf(nl, lines) + tail, q)
    decreases |lines|
  {
    var head := DATA + lines[0];
    DataLineIsOneLine(lines[0]);
    if |lines| == 1 {
      NoLineEndIn(head, tail, q);
    } else {
      var frame := FrameOf(nl, lines[1..]);
      forall j: nat | j < |frame| ensures !Hit(BlankLines(), frame + tail, j) {
        FrameHasNoSeparator(nl, lines[1..], tail, j);
      }
      FrameStart(nl, lines[1..]);
      LineHasNoSeparator(head, nl, frame + tail, |frame|, q);
      assert FrameOf(nl, lines) + tail == head + (nl + (frame + tail));
    }
  }

  lemma HitShift(m: Matcher, x: string, y: string, q: nat)
    requires Local(m)
    ensures m(x + y, |x| + q) == m(y, q)
    ensures Hit(m, x + y, |x| + q) <==> Hit(m, y, q)
  {
  }

  /** A part before the first match comes off the front. */
  lemma SplitFirst(m: Matcher, part: string, sep: string, tail: string)
    requires Local(m)
    requires forall q: nat :: q < |part| ==> !Hit(m, part + (sep + tail), q)
    requires sep != "" && m(sep + tail, 0) == |sep|
    ensures Split(m, part + (sep + tail)) == [part] + Split(m, tail)
  {
    var s := part + (sep + tail);
    SplitSkip(m, s, 0, |part|);
    HitShift(m, part, sep + tail, 0);
    assert s[0..|part|] == part;
    assert s == (part + sep) + tail;
    SplitShift(m, part + sep, tail, 0, 0);
  }

  /** A frame and its blank line come off the front of the stream. */
  lemma SplitFrame(nl: string, lines: seq<string>, tail: string)
    requires NewLine(nl) && Message(lines)
    ensures Split(BlankLines(), FrameOf(nl, lines) + (nl + nl) + tail)
         == [FrameOf(nl, lines)] + Split(BlankLines(), tail)
  {
    var frame := FrameOf(nl, lines);
    assert frame + (nl + nl) + tail == frame + ((nl + nl) + tail);
    forall q: nat | q < |frame| ensures !Hit(BlankLines(), frame + ((nl + nl) + tail), q) {
      FrameHasNoSeparator(nl, lines, (nl + nl) + tail, q);
    }
    DoubleLineEnd(nl, tail);
    MatchersAreLocal();
    SplitFirst(BlankLines(), frame, nl + nl, tail);
  }

  /** The lines of a frame are its data lines. */
  lemma {:induction false} FrameData(nl: string, lines: seq<string>)
    requires NewLine(nl) && Message(lines)
    ensures DataLines(Split(LineEnds(), FrameOf(nl, lines))) == Trimmed(lines)
    decreases |lines|
  {
    var head := DATA + lines[0];
    DataLineIsOneLine(lines[0]);
    assert head[5..] == lines[0];
    if |lines| == 1 {
      OneLineSplits(head);
      DataLinesStep(head, []);
      assert lines[1..] == [];
    } else {
      var next := FrameOf(nl, lines[1..]);
      FrameStart(nl, lines[1..]);
      LineThenSplits(head, nl, next);
      assert FrameOf(nl, lines) == head + (nl + next);
      FrameData(nl, lines[1..]);
      DataLinesStep(head, Split(LineEnds(), next));
    }
  }

  lemma OneLineSplits(head: string)
    requires OneLine(head)
    ensures Split(LineEnds(), head) == [head]
  {
    forall q: nat ensures !Hit(LineEnds(), head, q) {
      if q < |head| {
        NoLineEndIn(head, "", q);
        assert head + "" == head;
      }
    }
    SplitNothing(LineEnds(), head, 0, 0);
    assert head[0..] == head;
  }

  lemma LineThenSplits(head: string, nl: string, next: string)
    requires OneLine(head) && NewLine(nl)
    requires next != "" && next[0] != '\n' && next[0] != '\r'
    ensures Split(LineEnds(), head + (nl + next)) == [head] + Split(LineEnds(), next)
  {
    MatchersAreLocal();
    forall q: nat | q < |head| ensures !Hit(LineEnds(), head + (nl + next), q) {
      NoLineEndIn(head, nl + next, q);
    }
    SingleLineEnd(nl, next, 0);
    SplitFirst(LineEnds(), head, nl, next);
  }

  lemma DataLinesStep(head: string, rest: seq<string>)
    requires DATA <= head
    ensures DataLines([head] + rest) == [TrimStart(head[5..])] + DataLines(rest)
  {
    assert ([head] + rest)[1..] == rest;
  }

  /** A frame split off the front is emitted first. */
  lemma FirstFrame(stream: string, frame: string, later: string)
    requires Split(BlankLines(), stream) == [frame] + Split(BlankLines(), later)
    ensures Rest(stream) == Rest(later)
    ensures Emitted(Frames(stream)) == FrameEvents(frame) + Emitted(Frames(later))
  {
    assert Frames(stream) == [frame] + Frames(later);
    assert Frames(stream)[1..] == Frames(later);
  }

  lemma EncodeThen(nl: string, messages: seq<seq<string>>, tail: string)
    requires messages != [] && forall k :: 0 <= k < |messages| ==> Message(messages[k])
    ensures Encode(nl, messages) + tail == FrameOf(nl, messages[0]) + (nl + nl) + (Encode(nl, messages[1..]) + tail)
  {
  }

  /** Encoded messages come off the front of the stream, one event each. */
  lemma {:induction false} EncodeSplits(nl: string, messages: seq<seq<string>>, tail: string)
    requires NewLine(nl) && forall k :: 0 <= k < |messages| ==> Message(messages[k])
    requires Split(BlankLines(), tail) == [tail]
    ensures Rest(Encode(nl, messages) + tail) == tail
    ensures Emitted(Frames(Encode(nl, messages) + tail)) == Delivered(messages)
  {
    if messages == [] {
      assert "" + tail == tail;
      assert Frames(tail) == [];
    } else {
      var frame, later := FrameOf(nl, messages[0]), Encode(nl, messages[1..]) + tail;
      EncodeSplits(nl, messages[1..], tail);
      EncodeThen(nl, messages, tail);
      SplitFrame(nl, messages[0], later);
      FirstFrame(Encode(nl, messages) + tail, frame, later);
      FrameIsDelivered(nl, messages[0]);
    }
  }

  lemma FrameIsDelivered(nl: string, lines: seq<string>)
    requires NewLine(nl) && Message(lines)
    ensures FrameEvents(FrameOf(nl, lines)) == [EventOf(Join(Trimmed(lines)))]
  {
    FrameData(nl, lines);
    FrameStart(nl, lines);
    assert !IsSpace('d');
  }

  /** Messages encoded as data lines, with either line end, and cut anywhere by
      the network, arrive one event each, in order, with nothing left waiting. */
  lemma EncodedStreamIsDelivered(nl: string, messages: seq<seq<string>>, chunks: seq<string>)
    requires NewLine(nl) && forall k :: 0 <= k < |messages| ==> Message(messages[k])
    requires Stream(chunks) == Encode(nl, messages)
    ensures FeedAll(INITIAL, chunks) == State("", Delivered(messages))
  {
    NoSeparatorSplits("");
    assert Encode(nl, messages) + "" == Encode(nl, messages);
    StreamIsFed(nl, messages, "", chunks);
  }

  lemma NoSeparatorSplits(tail: string)
    requires forall q: nat :: !Hit(BlankLines(), tail, q)
    ensures Split(BlankLines(), tail) == [tail]
  {
    SplitNothing(BlankLines(), tail, 0, 0);
    assert tail[0..] == tail;
  }

  lemma StreamIsFed(nl: string, messages: seq<seq<string>>, tail: string, chunks: seq<string>)
    requires NewLine(nl) && forall k :: 0 <= k < |messages| ==> Message(messages[k])
    requires Split(BlankLines(), tail) == [tail] && Stream(chunks) == Encode(nl, messages) + tail
    ensures FeedAll(INITIAL, chunks) == State(tail, Delivered(messages))
  {
    ChunkIndependence(INITIAL, chunks);
    assert "" + Stream(chunks) == Stream(chunks);
    EncodeSplits(nl, messages, tail);
  }

  lemma FrameWaits(nl: string, lines: seq<string>)
    requires NewLine(nl) && Message(lines)
    ensures Split(BlankLines(), FrameOf(nl, lines)) == [FrameOf(nl, lines)]
  {
    var frame := FrameOf(nl, lines);
    assert frame + "" == frame;
    forall q: nat ensures !Hit(BlankLines(), frame, q) {
      if q < |frame| {
        FrameHasNoSeparator(nl, lines, "", q);
      }
    }
    NoSeparatorSplits(frame);
  }

  /** A last frame without its blank line waits in the buffer until the flush. */
  lemma LastFrameIsFlushed(nl: string, messages: seq<seq<string>>, last: seq<string>, chunks: seq<string>)
    requires NewLine(nl) && Message(last) && forall k :: 0 <= k < |messages| ==> Message(messages[k])
    requires Stream(chunks) == Encode(nl, messages) + FrameOf(nl, last)
    ensures FeedAll(INITIAL, chunks) == State(FrameOf(nl, last), Delivered(messages))
    ensures Flush(FeedAll(INITIAL, chunks)) == State("", Delivered(messages) + Delivered([last]))
  {
    FrameWaits(nl, last);
    StreamIsFed(nl, messages, FrameOf(nl, last), chunks);
    FrameIsDelivered(nl, last);
    FrameStart(nl, last);
    assert !IsSpace('d');
  }

  /** Spaces after the last frame stay in the buffer and emit nothing. */
  lemma BlankRestIsLeft(nl: string, messages: seq<seq<string>>, rest: string, chunks: seq<string>)
    requires NewLine(nl) && forall k :: 0 <= k < |messages| ==> Message(messages[k])
    requires (forall k :: 0 <= k < |rest| ==> rest[k] == ' ') && Stream(chunks) == Encode(nl, messages) + rest
    ensures Flush(FeedAll(INITIAL, chunks)) == State(rest, Delivered(messages))
  {
    NoSeparatorSplits(rest);
    StreamIsFed(nl, messages, rest, chunks);
  }
}
