/** How the chunk policy cuts one text: sentence-first packing by characters and
    line-first packing by UTF-8 bytes, each with a hard cut as the last resort.

    A text is a sequence of Unicode scalar values. */
module ChunkText {
  import opened Segmentation

  // ---------- sizes ----------

  /** Octets of one scalar value, section 3 of RFC 3629. */
  function Width(c: char): (w: nat)
    ensures 1 <= w <= 4
  {
    if c as int < 0x80 then 1
    else if c as int < 0x800 then 2
    else if c as int < 0x1_0000 then 3
    else 4
  }

  function Bytes(s: string): nat {
    if s == "" then 0 else Bytes(s[..|s| - 1]) + Width(s[|s| - 1])
  }

  /** The two units in which the policy measures a text. */
  datatype Measure = Chars | Utf8 {
    function Size(s: string): nat {
      match this
      case Chars => |s|
      case Utf8 => Bytes(s)
    }

    function Fits(limit: int): string -> bool {
      s => Size(s) <= limit
    }
  }

  lemma {:induction false} BytesAppend(a: string, b: string)
    ensures Bytes(a + b) == Bytes(a) + Bytes(b)
  {
    if b == "" {
      assert a + b == a;
    } else {
      assert (a + b)[..|a + b| - 1] == a + b[..|b| - 1];
      BytesAppend(a, b[..|b| - 1]);
    }
  }

  lemma SizeAppend(m: Measure, a: string, b: string)
    ensures m.Size(a + b) == m.Size(a) + m.Size(b)
  {
    BytesAppend(a, b);
  }

  lemma SizeOne(m: Measure, c: char)
    ensures 1 <= m.Size([c]) <= 4
    ensures m == Utf8 ==> m.Size([c]) == Width(c)
  {
    assert [c][..0] == "" && Bytes("") == 0;
    assert Bytes([c]) == Bytes([c][..0]) + Width([c][0]);
  }

  lemma FitsHereditary(m: Measure, limit: int)
    ensures Hereditary(m.Fits(limit))
  {
    forall s: string, i: nat, j: nat | i <= j <= |s| && m.Fits(limit)(s)
      ensures m.Fits(limit)(s[i..j])
    {
      assert s == s[..i] + s[i..j] + s[j..];
      SizeAppend(m, s[..i] + s[i..j], s[j..]);
      SizeAppend(m, s[..i], s[i..j]);
    }
  }

  // ---------- hard cuts ----------

  /** Greedy cut of one text into pieces of at most `limit`. */
  function Cut(m: Measure, limit: int, text: string): seq<string> {
    Segment(m.Fits(limit), "", text)
  }

  ghost predicate CharsFit(m: Measure, limit: int, text: string) {
    forall k :: 0 <= k < |text| ==> m.Size([text[k]]) <= limit
  }

  ghost predicate GoodPieces(m: Measure, limit: int, pieces: seq<string>) {
    forall k :: 0 <= k < |pieces| ==> pieces[k] != "" && m.Size(pieces[k]) <= limit
  }

  /** The cut loses nothing, whatever the limit; its pieces are non-empty and
      within the limit exactly when each character alone is. */
  lemma CutExact(m: Measure, limit: int, text: string)
    ensures Concat(Cut(m, limit, text)) == text
    ensures GoodPieces(m, limit, Cut(m, limit, text)) <==> CharsFit(m, limit, text)
  {
    var ok := m.Fits(limit);
    SegmentConcat(ok, "", text);
    FitsHereditary(m, limit);
    if CharsFit(m, limit, text) {
      SegmentFits(ok, "", text);
    }
    if GoodPieces(m, limit, Cut(m, limit, text)) {
      forall k | 0 <= k < |text| ensures m.Size([text[k]]) <= limit {
        FittingItems(ok, Cut(m, limit, text), k);
      }
    }
  }

  /** No partition of the text into pieces within the limit is shorter. */
  lemma CutFewest(m: Measure, limit: int, text: string, other: seq<string>)
    requires Concat(other) == text
    requires forall k :: 0 <= k < |other| ==> m.Size(other[k]) <= limit
    ensures |Cut(m, limit, text)| <= |other|
  {
    FitsHereditary(m, limit);
    GreedyFewest(m.Fits(limit), text, other);
  }

  /** A cap of four bytes or more fits every character; so does any positive
      number of characters. */
  lemma EnoughForAnyChar(m: Measure, limit: int, text: string)
    requires if m == Chars then limit >= 1 else limit >= 4
    ensures CharsFit(m, limit, text)
  {
    forall k | 0 <= k < |text| ensures m.Size([text[k]]) <= limit {
      SizeOne(m, text[k]);
    }
  }

  method ByteCodepointHardCut(text: string, maxBytes: int) returns (pieces: seq<string>)
    ensures pieces == Cut(Utf8, maxBytes, text)
  {
    ghost var ok := Utf8.Fits(maxBytes);
    pieces := [];
    var buffer, bufferBytes := "", 0;
    for i := 0 to |text|
      invariant Cut(Utf8, maxBytes, text) == pieces + Segment(ok, buffer, text[i..])
      invariant bufferBytes == Bytes(buffer)
    {
      var ch := text[i];
      var chBytes := Width(ch);
      SizeOne(Utf8, ch);
      BytesAppend(buffer, [ch]);
      assert text[i..][0] == ch && text[i..][1..] == text[i + 1..];
      if bufferBytes + chBytes > maxBytes {
        pieces := pieces + [buffer];
        buffer, bufferBytes := [ch], chBytes;
      } else {
        buffer, bufferBytes := buffer + [ch], bufferBytes + chBytes;
      }
    }
    if buffer != "" {
      pieces := pieces + [buffer];
    }
  }

  /** Slices of `size` characters.  A zero step is a ValueError in Python and a
      negative step gives no slice. */
  function HardCut(text: string, size: int): seq<string>
    requires size != 0
    decreases |text|
  {
    if size < 0 || text == "" then []
    else if |text| <= size then [text]
    else [text[..size]] + HardCut(text[size..], size)
  }

  lemma {:induction false} HardCutIsCut(text: string, size: int)
    requires size >= 1
    ensures HardCut(text, size) == Cut(Chars, size, text)
    decreases |text|
  {
    if |text| <= size {
      SegmentReads(size, text, |text|);
      assert text[..|text|] == text && text[|text|..] == "";
    } else {
      SegmentReads(size, text, size);
      HardCutIsCut(text[size..], size);
      SegmentReads(size, text[size..], 1);
      assert text[size..][..1] == [text[size]] && text[size..][1..] == text[size + 1..];
    }
  }

  /** The first `n` characters go into one buffer as long as they fit. */
  lemma {:induction false} SegmentReads(size: int, text: string, n: nat)
    requires n <= size && n <= |text|
    ensures Segment(Chars.Fits(size), "", text) == Segment(Chars.Fits(size), text[..n], text[n..])
  {
    if n == 0 {
      assert text[..0] == "" && text[0..] == text;
    } else {
      SegmentReads(size, text, n - 1);
      assert text[n - 1..][0] == text[n - 1] && text[n - 1..][1..] == text[n..];
      assert text[..n - 1] + [text[n - 1]] == text[..n];
      assert Chars.Fits(size)(text[..n]);
    }
  }

  /** `_hard_cut` keeps the text exactly when its step is positive or there is
      nothing to keep. */
  lemma HardCutConserves(text: string, size: int)
    requires size != 0
    ensures Concat(HardCut(text, size)) == text <==> size > 0 || text == ""
  {
    if size > 0 {
      HardCutIsCut(text, size);
      CutExact(Chars, size, text);
    }
  }

  // ---------- packing units ----------

  /** Packs whole units greedily; a unit over the limit closes the buffer and is
      cut on its own. */
  function Pack(m: Measure, limit: int, buffer: string, units: seq<string>): seq<string>
    decreases |units|
  {
    if units == [] then
      Closed(buffer)
    else if m.Size(units[0]) > limit then
      Closed(buffer) + Cut(m, limit, units[0]) + Pack(m, limit, "", units[1..])
    else if m.Size(buffer) + m.Size(units[0]) > limit then
      [buffer] + Pack(m, limit, units[0], units[1..])
    else
      Pack(m, limit, buffer + units[0], units[1..])
  }

  function Closed(buffer: string): seq<string> {
    if buffer == "" then [] else [buffer]
  }

  /** The packing loop before unit `i`: `done` is emitted and `buffer` is open. */
  ghost predicate Packing(m: Measure, limit: int, units: seq<string>, i: nat, done: seq<string>, buffer: string)
    requires i <= |units|
  {
    Pack(m, limit, "", units) == done + Pack(m, limit, buffer, units[i..])
  }

  lemma PackOversize(m: Measure, limit: int, units: seq<string>, i: nat, done: seq<string>, buffer: string)
    requires i < |units| && Packing(m, limit, units, i, done, buffer) && m.Size(units[i]) > limit
    ensures Packing(m, limit, units, i + 1, done + Closed(buffer) + Cut(m, limit, units[i]), "")
    ensures buffer == "" ==> done + Closed(buffer) == done
  {
    assert units[i..][0] == units[i] && units[i..][1..] == units[i + 1..];
    var closed, cut, rest := Closed(buffer), Cut(m, limit, units[i]), Pack(m, limit, "", units[i + 1..]);
    assert Pack(m, limit, buffer, units[i..]) == closed + cut + rest;
    assert done + (closed + cut + rest) == done + closed + cut + rest;
  }

  lemma PackFlush(m: Measure, limit: int, units: seq<string>, i: nat, done: seq<string>, buffer: string)
    requires i < |units| && Packing(m, limit, units, i, done, buffer)
    requires m.Size(units[i]) <= limit < m.Size(buffer) + m.Size(units[i])
    ensures Packing(m, limit, units, i + 1, done + [buffer], units[i])
  {
    assert units[i..][1..] == units[i + 1..];
  }

  lemma PackGrow(m: Measure, limit: int, units: seq<string>, i: nat, done: seq<string>, buffer: string)
    requires i < |units| && Packing(m, limit, units, i, done, buffer)
    requires m.Size(units[i]) <= limit && m.Size(buffer) + m.Size(units[i]) <= limit
    ensures Packing(m, limit, units, i + 1, done, buffer + units[i])
  {
    assert units[i..][1..] == units[i + 1..];
  }

  lemma ClosedConcat(buffer: string)
    ensures Concat(Closed(buffer)) == buffer
  {
    if buffer != "" {
      assert Concat([buffer]) == buffer + Concat([]);
    }
  }

  lemma {:induction false} PackConcat(m: Measure, limit: int, buffer: string, units: seq<string>)
    ensures Concat(Pack(m, limit, buffer, units)) == buffer + Concat(units)
    decreases |units|
  {
    ClosedConcat(buffer);
    if units != [] {
      var u, later := units[0], units[1..];
      assert buffer + Concat(units) == buffer + u + Concat(later);
      if m.Size(u) > limit {
        PackConcat(m, limit, "", later);
        ClosedThenCut(m, limit, buffer, u);
        ConcatAppend(Closed(buffer) + Cut(m, limit, u), Pack(m, limit, "", later));
      } else if m.Size(buffer) + m.Size(u) > limit {
        PackConcat(m, limit, u, later);
        PieceThen(buffer, Pack(m, limit, u, later));
      } else {
        PackConcat(m, limit, buffer + u, later);
      }
    }
  }

  lemma ClosedThenCut(m: Measure, limit: int, buffer: string, u: string)
    ensures Concat(Closed(buffer) + Cut(m, limit, u)) == buffer + u
  {
    ClosedConcat(buffer);
    CutExact(m, limit, u);
    ConcatAppend(Closed(buffer), Cut(m, limit, u));
  }

  lemma PieceThen(piece: string, rest: seq<string>)
    ensures Concat([piece] + rest) == piece + Concat(rest)
  {
    assert ([piece] + rest)[1..] == rest;
  }

  lemma {:induction false} PackFits(m: Measure, limit: int, buffer: string, units: seq<string>)
    requires m.Size(buffer) <= limit
    requires forall k :: 0 <= k < |units| ==> units[k] != "" && CharsFit(m, limit, units[k])
    ensures GoodPieces(m, limit, Pack(m, limit, buffer, units))
    decreases |units|
  {
    if units != [] {
      var u, later := units[0], units[1..];
      if m.Size(u) > limit {
        PackFits(m, limit, "", later);
        CutExact(m, limit, u);
      } else if m.Size(buffer) + m.Size(u) > limit {
        PackFits(m, limit, u, later);
      } else {
        SizeAppend(m, buffer, u);
        PackFits(m, limit, buffer + u, later);
      }
    }
  }

  /** Position `x` of the joined units is a unit boundary, or lies inside a unit
      that is alone over the limit. */
  ghost predicate LegalCut(m: Measure, limit: int, units: seq<string>, x: int)
    decreases |units|
  {
    if x == 0 then true
    else if units == [] || x < 0 then false
    else if x < |units[0]| then m.Size(units[0]) > limit
    else LegalCut(m, limit, units[1..], x - |units[0]|)
  }

  lemma {:induction false} PrefixGrows(parts: seq<string>, i: nat, j: nat)
    requires i <= j <= |parts|
    ensures |Concat(parts[..i])| <= |Concat(parts[..j])|
  {
    assert parts[..j] == parts[..i] + parts[i..j];
    ConcatAppend(parts[..i], parts[i..j]);
  }

  /** Every place where the packed pieces meet is a legal cut. */
  lemma {:induction false} PackCutsLegally(m: Measure, limit: int, buffer: string, units: seq<string>, k: nat)
    requires 0 < k <= |Pack(m, limit, buffer, units)|
    ensures LegalCut(m, limit, units, |Concat(Pack(m, limit, buffer, units)[..k])| - |buffer|)
    decreases |units|
  {
    var pieces := Pack(m, limit, buffer, units);
    if units == [] {
      ClosedConcat(buffer);
      assert pieces[..k] == pieces;
    } else if m.Size(units[0]) > limit {
      OversizeCutsLegally(m, limit, buffer, units, k);
    } else if m.Size(buffer) + m.Size(units[0]) > limit {
      var rest := Pack(m, limit, units[0], units[1..]);
      PrefixThen(buffer, rest, k);
      if k > 1 {
        PackCutsLegally(m, limit, units[0], units[1..], k - 1);
        PackStartsWithBuffer(m, limit, units[0], units[1..], k - 1);
        LegalCutShift(m, limit, units, |Concat(rest[..k - 1])| - |units[0]|);
      } else {
        assert rest[..0] == [];
      }
    } else {
      PackCutsLegally(m, limit, buffer + units[0], units[1..], k);
      PackStartsWithBuffer(m, limit, buffer + units[0], units[1..], k);
      LegalCutShift(m, limit, units, |Concat(pieces[..k])| - |buffer + units[0]|);
    }
  }

  lemma PrefixThen(piece: string, rest: seq<string>, k: nat)
    requires 0 < k <= |rest| + 1
    ensures |Concat(([piece] + rest)[..k])| == |piece| + |Concat(rest[..k - 1])|
  {
    assert ([piece] + rest)[..k] == [piece] + rest[..k - 1];
    PieceThen(piece, rest[..k - 1]);
  }

  lemma {:induction false} OversizeCutsLegally(m: Measure, limit: int, buffer: string, units: seq<string>, k: nat)
    requires units != [] && m.Size(units[0]) > limit
    requires 0 < k <= |Pack(m, limit, buffer, units)|
    ensures LegalCut(m, limit, units, |Concat(Pack(m, limit, buffer, units)[..k])| - |buffer|)
    decreases |units|, 0
  {
    var u := units[0];
    var pieces := Pack(m, limit, buffer, units);
    var own := Closed(buffer) + Cut(m, limit, u);
    var rest := Pack(m, limit, "", units[1..]);
    assert pieces == own + rest;
    ClosedThenCut(m, limit, buffer, u);
    if k <= |own| {
      assert pieces[..k] == own[..k];
      OwnPrefix(m, limit, buffer, u, k);
    } else {
      var j := k - |own|;
      assert pieces[..k] == own + rest[..j];
      ConcatAppend(own, rest[..j]);
      PackCutsLegally(m, limit, "", units[1..], j);
      LegalCutShift(m, limit, units, |Concat(rest[..j])|);
    }
  }

  lemma OwnPrefix(m: Measure, limit: int, buffer: string, u: string, k: nat)
    requires 0 < k <= |Closed(buffer) + Cut(m, limit, u)|
    ensures |buffer| <= |Concat((Closed(buffer) + Cut(m, limit, u))[..k])| <= |buffer| + |u|
  {
    var own := Closed(buffer) + Cut(m, limit, u);
    ClosedThenCut(m, limit, buffer, u);
    ClosedConcat(buffer);
    assert own[..|Closed(buffer)|] == Closed(buffer) && own[..|own|] == own;
    PrefixGrows(own, |Closed(buffer)|, k);
    PrefixGrows(own, k, |own|);
  }

  lemma LegalCutShift(m: Measure, limit: int, units: seq<string>, x: nat)
    requires units != [] && LegalCut(m, limit, units[1..], x)
    ensures LegalCut(m, limit, units, |units[0]| + x)
  {
  }

  /** The buffered text is never cut: the first piece contains it. */
  lemma {:induction false} PackStartsWithBuffer(m: Measure, limit: int, buffer: string, units: seq<string>, k: nat)
    requires k <= |Pack(m, limit, buffer, units)|
    ensures k > 0 ==> |Concat(Pack(m, limit, buffer, units)[..k])| >= |buffer|
    decreases |units|
  {
    if k == 0 {
      return;
    }
    var pieces := Pack(m, limit, buffer, units);
    assert pieces[..k] == [pieces[0]] + pieces[1..k];
    if units != [] && m.Size(units[0]) <= limit && m.Size(buffer) + m.Size(units[0]) <= limit {
      PackStartsWithBuffer(m, limit, buffer + units[0], units[1..], k);
    }
  }

  /** A group of whole units that may share one piece. */
  function GroupFits(m: Measure, limit: int): seq<string> -> bool {
    g => m.Size(Concat(g)) <= limit
  }

  lemma GroupFitsHereditary(m: Measure, limit: int)
    ensures Hereditary(GroupFits(m, limit))
  {
    forall g: seq<string>, i: nat, j: nat | i <= j <= |g| && GroupFits(m, limit)(g)
      ensures GroupFits(m, limit)(g[i..j])
    {
      GroupPart(m, g, i, j);
    }
  }

  lemma GroupPart(m: Measure, g: seq<string>, i: nat, j: nat)
    requires i <= j <= |g|
    ensures m.Size(Concat(g[i..j])) <= m.Size(Concat(g))
  {
    PartSize(m, g[..j], i);
    assert g[..j][i..] == g[i..j];
    PartSize(m, g, j);
  }

  lemma PartSize(m: Measure, g: seq<string>, i: nat)
    requires i <= |g|
    ensures m.Size(Concat(g)) == m.Size(Concat(g[..i])) + m.Size(Concat(g[i..]))
    ensures m.Size(Concat(g[..i])) >= 0 && m.Size(Concat(g[i..])) >= 0
  {
    assert g == g[..i] + g[i..];
    ConcatAppend(g[..i], g[i..]);
    SizeAppend(m, Concat(g[..i]), Concat(g[i..]));
  }

  /** With no unit over the limit, no way of grouping whole units into pieces
      within the limit gives fewer pieces. */
  lemma PackFewest(m: Measure, limit: int, units: seq<string>, other: seq<seq<string>>)
    requires forall k :: 0 <= k < |units| ==> units[k] != "" && m.Size(units[k]) <= limit
    requires Concat(other) == units
    requires forall k :: 0 <= k < |other| ==> m.Size(Concat(other[k])) <= limit
    ensures |Pack(m, limit, "", units)| <= |other|
  {
    GroupFitsHereditary(m, limit);
    PackIsSegment(m, limit, [], units);
    GreedyFewest(GroupFits(m, limit), units, other);
  }

  lemma {:induction false} PackIsSegment(m: Measure, limit: int, group: seq<string>, units: seq<string>)
    requires forall k :: 0 <= k < |units| ==> units[k] != "" && m.Size(units[k]) <= limit
    requires group == [] <==> Concat(group) == ""
    ensures |Pack(m, limit, Concat(group), units)| == |Segment(GroupFits(m, limit), group, units)|
    decreases |units|
  {
    if units != [] {
      var u := units[0];
      GroupGrows(m, group, u);
      if m.Size(Concat(group)) + m.Size(u) > limit {
        PackIsSegment(m, limit, [u], units[1..]);
      } else {
        PackIsSegment(m, limit, group + [u], units[1..]);
      }
    }
  }

  lemma GroupGrows(m: Measure, group: seq<string>, u: string)
    ensures Concat([u]) == u
    ensures Concat(group + [u]) == Concat(group) + u
    ensures m.Size(Concat(group + [u])) == m.Size(Concat(group)) + m.Size(u)
  {
    ConcatAppend(group, [u]);
    PieceThen(u, []);
    assert [u] + [] == [u];
    SizeAppend(m, Concat(group), u);
  }

  // ---------- sentences ----------

  /** 。 ！ ？ ! ? */
  predicate EndsSentence(c: char) {
    c == '\U{3002}' || c == '\U{FF01}' || c == '\U{FF1F}' || c == '!' || c == '?'
  }

  function Boundaries(text: string, i: nat): seq<nat>
    requires i <= |text|
    decreases |text| - i
  {
    if i == |text| then []
    else (if EndsSentence(text[i]) then [i + 1] else []) + Boundaries(text, i + 1)
  }

  /** The sentence in progress is `text[start..i]`. */
  function SentencesFrom(text: string, start: nat, i: nat): seq<string>
    requires start <= i <= |text|
    decreases |text| - i
  {
    if i == |text| then Closed(text[start..])
    else if EndsSentence(text[i]) then [text[start..i + 1]] + SentencesFrom(text, i + 1, i + 1)
    else SentencesFrom(text, start, i + 1)
  }

  function Sentences(text: string): seq<string> {
    if text == "" then [""] else SentencesFrom(text, 0, 0)
  }

  /** A sentence: no terminator before its last character. */
  ghost predicate OneSentence(s: string) {
    s != "" && forall k :: 0 <= k < |s| - 1 ==> !EndsSentence(s[k])
  }

  ghost predicate Terminated(s: string) {
    s != "" && EndsSentence(s[|s| - 1])
  }

  /** The sentences partition the text, each is one sentence, and each but the
      last ends with a terminator. */
  lemma SentencesExact(text: string)
    requires text != ""
    ensures Concat(Sentences(text)) == text && AreSentences(Sentences(text))
  {
    SentencesFromExact(text, 0, 0);
  }

  ghost predicate AreSentences(ss: seq<string>) {
    && (forall k :: 0 <= k < |ss| ==> OneSentence(ss[k]))
    && (forall k :: 0 <= k < |ss| - 1 ==> Terminated(ss[k]))
  }

  lemma SentenceThen(s: string, ss: seq<string>)
    requires OneSentence(s) && Terminated(s) && AreSentences(ss)
    ensures AreSentences([s] + ss) && Concat([s] + ss) == s + Concat(ss)
  {
    PieceThen(s, ss);
  }

  lemma {:induction false} SentencesFromExact(text: string, start: nat, i: nat)
    requires start <= i <= |text|
    requires forall k :: start <= k < i ==> !EndsSentence(text[k])
    ensures Concat(SentencesFrom(text, start, i)) == text[start..] && AreSentences(SentencesFrom(text, start, i))
    decreases |text| - i
  {
    if i == |text| {
      ClosedConcat(text[start..]);
    } else if EndsSentence(text[i]) {
      SentencesFromExact(text, i + 1, i + 1);
      SentenceThen(text[start..i + 1], SentencesFrom(text, i + 1, i + 1));
      assert text[start..] == text[start..i + 1] + text[i + 1..];
    } else {
      SentencesFromExact(text, start, i + 1);
    }
  }

  lemma {:induction false} NextBoundary(text: string, start: nat, i: nat)
    requires start <= i <= |text|
    ensures Boundaries(text, i) == [] ==> SentencesFrom(text, start, i) == Closed(text[start..])
    ensures Boundaries(text, i) != [] ==>
      var b := Boundaries(text, i)[0];
      && i < b <= |text|
      && SentencesFrom(text, start, i) == [text[start..b]] + SentencesFrom(text, b, b)
      && Boundaries(text, i) == [b] + Boundaries(text, b)
    decreases |text| - i
  {
    if i < |text| && !EndsSentence(text[i]) {
      NextBoundary(text, start, i + 1);
    }
  }

  /** One round of the boundary loop, with `done` already emitted. */
  lemma BoundaryStep(text: string, done: seq<string>, cursor: nat, boundaries: seq<nat>)
    requires cursor <= |text| && boundaries == Boundaries(text, cursor) != []
    ensures var b := boundaries[0];
      && cursor < b <= |text| && Boundaries(text, b) == boundaries[1..]
      && done + SentencesFrom(text, cursor, cursor) == done + [text[cursor..b]] + SentencesFrom(text, b, b)
  {
    NextBoundary(text, cursor, cursor);
  }

  method SplitIntoSentences(text: string) returns (sentences: seq<string>)
    ensures sentences == Sentences(text)
  {
    var boundaries := Boundaries(text, 0);
    NextBoundary(text, 0, 0);
    if boundaries == [] {
      return [text];
    }
    sentences := [];
    var cursor: nat := 0;
    ghost var all := SentencesFrom(text, 0, 0);
    for k := 0 to |boundaries|
      invariant cursor <= |text|
      invariant boundaries[k..] == Boundaries(text, cursor)
      invariant all == sentences + SentencesFrom(text, cursor, cursor)
    {
      BoundaryStep(text, sentences, cursor, boundaries[k..]);
      assert boundaries[k..][1..] == boundaries[k + 1..];
      sentences := sentences + [text[cursor..boundaries[k]]];
      cursor := boundaries[k];
    }
    NextBoundary(text, cursor, cursor);
    if cursor < |text| {
      sentences := sentences + [text[cursor..]];
    }
  }

  /** The specification of `_split_text`. */
  function SplitPieces(text: string, maxSize: int): seq<string> {
    Pack(Chars, maxSize, "", Sentences(text))
  }

  method SplitText(text: string, maxSize: int) returns (pieces: seq<string>)
    requires maxSize >= 1
    ensures pieces == SplitPieces(text, maxSize)
  {
    var sentences := SplitIntoSentences(text);
    if |sentences| == 1 && |sentences[0]| > maxSize {
      OnlySentence(text);
      HardCutIsCut(text, maxSize);
      assert Pack(Chars, maxSize, "", sentences) == [] + Cut(Chars, maxSize, text) + [];
      return HardCut(text, maxSize);
    }
    pieces := [];
    var buffer := "";
    assert sentences[0..] == sentences;
    for i := 0 to |sentences|
      invariant Packing(Chars, maxSize, sentences, i, pieces, buffer)
    {
      var sentence := sentences[i];
      if |sentence| > maxSize {
        PackOversize(Chars, maxSize, sentences, i, pieces, buffer);
        if buffer != "" {
          pieces := pieces + [buffer];
          buffer := "";
        }
        HardCutIsCut(sentence, maxSize);
        pieces := pieces + HardCut(sentence, maxSize);
      } else if |buffer| + |sentence| > maxSize {
        PackFlush(Chars, maxSize, sentences, i, pieces, buffer);
        pieces := pieces + [buffer];
        buffer := sentence;
      } else {
        PackGrow(Chars, maxSize, sentences, i, pieces, buffer);
        buffer := buffer + sentence;
      }
    }
    if buffer != "" {
      pieces := pieces + [buffer];
    }
  }

  lemma OnlySentence(text: string)
    requires |Sentences(text)| == 1
    ensures Sentences(text) == [text]
  {
    if text != "" {
      SentencesExact(text);
      ClosedConcat(Sentences(text)[0]);
      assert Closed(Sentences(text)[0]) == Sentences(text);
    }
  }

  /** `_split_text` loses nothing, respects the limit, never leaves an empty
      piece, and cuts inside a sentence only if that sentence is too long. */
  lemma SplitTextCorrect(text: string, maxSize: int)
    requires maxSize >= 1
    ensures Concat(SplitPieces(text, maxSize)) == text
    ensures GoodPieces(Chars, maxSize, SplitPieces(text, maxSize))
    ensures forall k :: 0 < k <= |SplitPieces(text, maxSize)| ==>
      LegalCut(Chars, maxSize, Sentences(text), |Concat(SplitPieces(text, maxSize)[..k])|)
  {
    var ss := Sentences(text);
    PackConcat(Chars, maxSize, "", ss);
    if text == "" {
      assert Pack(Chars, maxSize, "", [""]) == Pack(Chars, maxSize, "" + "", [""][1..]);
      assert Concat([""]) == "" + Concat([]);
    } else {
      SentencesExact(text);
      forall k | 0 <= k < |ss| ensures ss[k] != "" && CharsFit(Chars, maxSize, ss[k]) {
        assert OneSentence(ss[k]);
      }
      PackFits(Chars, maxSize, "", ss);
    }
    forall k | 0 < k <= |SplitPieces(text, maxSize)|
      ensures LegalCut(Chars, maxSize, ss, |Concat(SplitPieces(text, maxSize)[..k])|)
    {
      PackCutsLegally(Chars, maxSize, "", ss, k);
    }
  }

  /** When every sentence fits, no grouping of whole sentences is shorter. */
  lemma SplitTextFewest(text: string, maxSize: int, other: seq<seq<string>>)
    requires text != ""
    requires forall s :: s in Sentences(text) ==> |s| <= maxSize
    requires Concat(other) == Sentences(text)
    requires forall k :: 0 <= k < |other| ==> |Concat(other[k])| <= maxSize
    ensures |SplitPieces(text, maxSize)| <= |other|
  {
    SentencesExact(text);
    forall k | 0 <= k < |Sentences(text)| ensures Sentences(text)[k] != "" {
      assert OneSentence(Sentences(text)[k]);
    }
    PackFewest(Chars, maxSize, Sentences(text), other);
  }

  // ---------- pieces short enough to be joined ----------

  /** Position `x` of the joined units is the end of a unit over the limit. */
  ghost predicate AfterOversize(limit: int, units: seq<string>, x: int)
    decreases |units|
  {
    units != [] && ((x == |units[0]| && |units[0]| > limit) || AfterOversize(limit, units[1..], x - |units[0]|))
  }

  lemma {:induction false} HardCutIsFull(text: string, size: int, k: nat)
    requires size >= 1 && k < |HardCut(text, size)|
    ensures k < |HardCut(text, size)| - 1 ==> |HardCut(text, size)[k]| == size
    ensures HardCut(text, size)[k] != ""
    ensures |text| > size ==> |HardCut(text, size)| >= 2
    decreases |text|
  {
    if k > 0 {
      HardCutIsFull(text[size..], size, k - 1);
    }
  }

  /** Two neighbouring packed pieces fit together only after the remainder of a cut
      unit. */
  lemma {:induction false} PackShortJoint(limit: int, buffer: string, units: seq<string>, k: nat)
    requires limit >= 1 && k + 1 < |Pack(Chars, limit, buffer, units)|
    ensures var pieces := Pack(Chars, limit, buffer, units);
      |pieces[k]| + |pieces[k + 1]| <= limit ==> AfterOversize(limit, units, |Concat(pieces[..k + 1])| - |buffer|)
    decreases |units|
  {
    if units != [] {
      var pieces, u, later := Pack(Chars, limit, buffer, units), units[0], units[1..];
      if |u| > limit {
        OversizeShortJoint(limit, buffer, units, k);
      } else if |buffer| + |u| > limit {
        var rest := Pack(Chars, limit, u, later);
        PrefixThen(buffer, rest, k + 1);
        PackStartsWithBuffer(Chars, limit, u, later, 1);
        assert Concat(rest[..1]) == rest[0] by { assert rest[..1] == [rest[0]] + []; PieceThen(rest[0], []); }
        if k > 0 {
          PackShortJoint(limit, u, later, k - 1);
        }
      } else {
        PackShortJoint(limit, buffer + u, later, k);
      }
    }
  }

  /** An over-long unit closes the buffer and is cut on its own. */
  lemma OversizeHead(limit: int, buffer: string, units: seq<string>)
    requires limit >= 1 && units != [] && |units[0]| > limit
    ensures var head := Closed(buffer) + HardCut(units[0], limit);
      && Pack(Chars, limit, buffer, units) == head + Pack(Chars, limit, "", units[1..])
      && Concat(head) == buffer + units[0]
  {
    HardCutIsCut(units[0], limit);
    HardCutConserves(units[0], limit);
    ClosedConcat(buffer);
    ConcatAppend(Closed(buffer), HardCut(units[0], limit));
  }

  lemma OversizeShortJoint(limit: int, buffer: string, units: seq<string>, k: nat)
    requires limit >= 1 && units != [] && |units[0]| > limit
    requires k + 1 < |Pack(Chars, limit, buffer, units)|
    ensures var pieces := Pack(Chars, limit, buffer, units);
      |pieces[k]| + |pieces[k + 1]| <= limit ==> AfterOversize(limit, units, |Concat(pieces[..k + 1])| - |buffer|)
    decreases |units|, 0
  {
    var head, rest := Closed(buffer) + HardCut(units[0], limit), Pack(Chars, limit, "", units[1..]);
    OversizeHead(limit, buffer, units);
    HeadIsWide(limit, buffer, units[0]);
    if k + 1 >= |head| {
      if k >= |head| {
        PackShortJoint(limit, "", units[1..], k - |head|);
      }
      JointAfterHead(limit, buffer, units, head, rest, k);
    }
  }

  /** Beyond the pieces of the over-long unit the joint is one of the rest. */
  lemma JointAfterHead(limit: int, buffer: string, units: seq<string>, head: seq<string>, rest: seq<string>, k: nat)
    requires units != [] && |units[0]| > limit && Concat(head) == buffer + units[0]
    requires |head| <= k + 1 < |head| + |rest|
    requires k >= |head| && |rest[k - |head|]| + |rest[k - |head| + 1]| <= limit ==>
      AfterOversize(limit, units[1..], |Concat(rest[..k - |head| + 1])|)
    ensures var pieces := head + rest;
      |pieces[k]| + |pieces[k + 1]| <= limit ==> AfterOversize(limit, units, |Concat(pieces[..k + 1])| - |buffer|)
  {
    var n := k + 1 - |head|;
    assert (head + rest)[..k + 1] == head + rest[..n];
    ConcatAppend(head, rest[..n]);
    if n == 0 {
      assert rest[..0] == [];
    }
  }

  /** No two neighbours among the closed buffer and the slices fit together. */
  lemma HeadIsWide(limit: int, buffer: string, u: string)
    requires limit >= 1 && |u| > limit
    ensures var head := Closed(buffer) + HardCut(u, limit);
      head != [] && forall k: nat :: k + 1 < |head| ==> |head[k]| + |head[k + 1]| > limit
  {
    var cut := HardCut(u, limit);
    var head := Closed(buffer) + cut;
    HardCutIsFull(u, limit, 0);
    forall k: nat | k + 1 < |head| ensures |head[k]| + |head[k + 1]| > limit {
      var n := |Closed(buffer)|;
      if k >= n {
        HardCutIsFull(u, limit, k - n);
        HardCutIsFull(u, limit, k + 1 - n);
      }
    }
  }

  // ---------- lines ----------

  /** The line boundaries of Python's `str.splitlines`, apart from "\r\n". */
  predicate EndsLine(c: char) {
    || c == '\n' || c == '\r' || c == '\U{000B}' || c == '\U{000C}' || c == '\U{001C}' || c == '\U{001D}'
    || c == '\U{001E}' || c == '\U{0085}' || c == '\U{2028}' || c == '\U{2029}'
  }

  /** `text.splitlines(keepends=True)`; the line in progress is `text[start..i]`. */
  function LinesFrom(text: string, start: nat, i: nat): seq<string>
    requires start <= i <= |text|
    decreases |text| - i
  {
    if i == |text| then Closed(text[start..])
    else if !EndsLine(text[i]) || CrLfAt(text, i) then LinesFrom(text, start, i + 1)
    else [text[start..i + 1]] + LinesFrom(text, i + 1, i + 1)
  }

  predicate CrLfAt(text: string, i: nat)
    requires i < |text|
  {
    i + 1 < |text| && text[i] == '\r' && text[i + 1] == '\n'
  }

  function Lines(text: string): seq<string> {
    LinesFrom(text, 0, 0)
  }

  lemma {:induction false} LinesFromExact(text: string, start: nat, i: nat)
    requires start <= i <= |text|
    ensures Concat(LinesFrom(text, start, i)) == text[start..]
    ensures forall k :: 0 <= k < |LinesFrom(text, start, i)| ==> LinesFrom(text, start, i)[k] != ""
    decreases |text| - i
  {
    if i == |text| {
      ClosedConcat(text[start..]);
    } else if !EndsLine(text[i]) || CrLfAt(text, i) {
      LinesFromExact(text, start, i + 1);
    } else {
      LinesFromExact(text, i + 1, i + 1);
      PieceThen(text[start..i + 1], LinesFrom(text, i + 1, i + 1));
      assert text[start..] == text[start..i + 1] + text[i + 1..];
    }
  }

  /** The specification of `_byte_safe_split`. */
  function BytePieces(text: string, maxBytes: int): seq<string> {
    Pack(Utf8, maxBytes, "", Lines(text))
  }

  method ByteSafeSplit(text: string, maxBytes: int) returns (pieces: seq<string>)
    ensures pieces == BytePieces(text, maxBytes)
  {
    pieces := PackLines(Lines(text), maxBytes);
  }

  method PackLines(lines: seq<string>, maxBytes: int) returns (pieces: seq<string>)
    ensures pieces == Pack(Utf8, maxBytes, "", lines)
  {
    pieces := [];
    var buffer, bufferBytes := "", 0;
    assert lines[0..] == lines;
    for i := 0 to |lines|
      invariant Packing(Utf8, maxBytes, lines, i, pieces, buffer)
      invariant bufferBytes == Utf8.Size(buffer)
    {
      var line := lines[i];
      var lineBytes := Utf8.Size(line);
      if lineBytes > maxBytes {
        PackOversize(Utf8, maxBytes, lines, i, pieces, buffer);
        if buffer != "" {
          pieces := pieces + [buffer];
        }
        var cut := ByteCodepointHardCut(line, maxBytes);
        pieces := pieces + cut;
        buffer, bufferBytes := "", 0;
      } else if bufferBytes + lineBytes > maxBytes {
        PackFlush(Utf8, maxBytes, lines, i, pieces, buffer);
        pieces := pieces + [buffer];
        buffer, bufferBytes := line, lineBytes;
      } else {
        PackGrow(Utf8, maxBytes, lines, i, pieces, buffer);
        SizeAppend(Utf8, buffer, line);
        buffer, bufferBytes := buffer + line, bufferBytes + lineBytes;
      }
    }
    if buffer != "" {
      pieces := pieces + [buffer];
    }
  }

  /** `_byte_safe_split` loses nothing for any cap and cuts inside a line only
      if that line is over the cap; all pieces are non-empty and within the cap
      exactly when every character is, so always for a cap of four or more. */
  lemma ByteSafeSplitCorrect(text: string, maxBytes: int)
    ensures Concat(BytePieces(text, maxBytes)) == text
    ensures forall k :: 0 < k <= |BytePieces(text, maxBytes)| ==>
      LegalCut(Utf8, maxBytes, Lines(text), |Concat(BytePieces(text, maxBytes)[..k])|)
    ensures GoodPieces(Utf8, maxBytes, BytePieces(text, maxBytes)) <==> CharsFit(Utf8, maxBytes, text)
    ensures maxBytes >= 4 ==> GoodPieces(Utf8, maxBytes, BytePieces(text, maxBytes))
  {
    var lines := Lines(text);
    var pieces := BytePieces(text, maxBytes);
    LinesFromExact(text, 0, 0);
    PackConcat(Utf8, maxBytes, "", lines);
    forall k | 0 < k <= |pieces|
      ensures LegalCut(Utf8, maxBytes, lines, |Concat(pieces[..k])|)
    {
      PackCutsLegally(Utf8, maxBytes, "", lines, k);
    }
    GoodPiecesIffCharsFit(Utf8, maxBytes, lines);
    if maxBytes >= 4 {
      EnoughForAnyChar(Utf8, maxBytes, text);
    }
  }

  /** When every line fits the cap, no grouping of whole lines is shorter. */
  lemma ByteSafeSplitFewest(text: string, maxBytes: int, other: seq<seq<string>>)
    requires forall line :: line in Lines(text) ==> Utf8.Size(line) <= maxBytes
    requires Concat(other) == Lines(text)
    requires forall k :: 0 <= k < |other| ==> Utf8.Size(Concat(other[k])) <= maxBytes
    ensures |BytePieces(text, maxBytes)| <= |other|
  {
    LinesFromExact(text, 0, 0);
    PackFewest(Utf8, maxBytes, Lines(text), other);
  }

  /** Packing yields non-empty pieces within the limit exactly when every
      character is within the limit. */
  lemma GoodPiecesIffCharsFit(m: Measure, limit: int, units: seq<string>)
    requires forall k :: 0 <= k < |units| ==> units[k] != ""
    ensures GoodPieces(m, limit, Pack(m, limit, "", units)) <==> CharsFit(m, limit, Concat(units))
  {
    var text, pieces := Concat(units), Pack(m, limit, "", units);
    PackConcat(m, limit, "", units);
    FitsHereditary(m, limit);
    if CharsFit(m, limit, text) && text != "" {
      forall k | 0 <= k < |units| ensures CharsFit(m, limit, units[k]) {
        CharsFitPart(m, limit, units, k);
      }
      SizeOne(m, text[0]);
      assert m.Size([text[0]]) <= limit;
      PackFits(m, limit, "", units);
    }
    if GoodPieces(m, limit, pieces) {
      forall k | 0 <= k < |text| ensures m.Size([text[k]]) <= limit {
        FittingItems(m.Fits(limit), pieces, k);
      }
    }
  }

  lemma {:induction false} CharsFitPart(m: Measure, limit: int, parts: seq<string>, k: nat)
    requires k < |parts|
    requires CharsFit(m, limit, Concat(parts))
    ensures CharsFit(m, limit, parts[k])
  {
    var all := Concat(parts);
    if k == 0 {
      forall j | 0 <= j < |parts[0]| ensures m.Size([parts[0][j]]) <= limit {
        assert all[j] == parts[0][j];
      }
    } else {
      var later := Concat(parts[1..]);
      forall j | 0 <= j < |later| ensures m.Size([later[j]]) <= limit {
        assert all[|parts[0]| + j] == later[j];
      }
      CharsFitPart(m, limit, parts[1..], k - 1);
    }
  }
}
