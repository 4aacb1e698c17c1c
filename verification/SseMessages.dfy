/** What a delivered event carries, said with the characters of the message. */
module SseMessages {
  import opened Places
  import opened SseParser

  // ---------- leading blanks ----------

  /** The code points that ECMAScript calls white space or line terminators. */
  const SPACES: set<int> := {
    0x9, 0xA, 0xB, 0xC, 0xD, 0x20, 0xA0, 0x1680, 0x2000, 0x2001, 0x2002, 0x2003, 0x2004, 0x2005, 0x2006, 0x2007, 0x2008,
    0x2009, 0x200A, 0x2028, 0x2029, 0x202F, 0x205F, 0x3000, 0xFEFF}

  lemma SpacesExact(c: char)
    ensures IsSpace(c) <==> c as int in SPACES
  {
    assert '\t' as int == 0x9 && '\r' as int == 0xD && ' ' as int == 0x20 && '\U{2000}' as int == 0x2000;
    assert '\U{200A}' as int == 0x200A;
  }

  /** `t` is `s` from its first character that is not a space. */
  ghost predicate Cleared(s: string, t: string) {
    var cut := |s| - |t|;
    && 0 <= cut && t == s[cut..]
    && (forall k :: 0 <= k < cut ==> s[k] as int in SPACES)
    && (t != "" ==> t[0] as int !in SPACES)
  }

  lemma {:induction false} TrimStartExact(s: string)
    ensures Cleared(s, TrimStart(s))
  {
    if s != "" {
      SpacesExact(s[0]);
      if IsSpace(s[0]) {
        TrimStartExact(s[1..]);
      }
    }
  }

  // ---------- joined lines ----------

  function Total(lines: seq<string>): nat {
    if lines == [] then 0 else |lines[0]| + Total(lines[1..])
  }

  /** Joining is undone by splitting at line ends, and adds one character between
      two lines. */
  lemma {:induction false} JoinExact(lines: seq<string>)
    requires Message(lines)
    ensures Split(LineEnds(), Join(lines)) == lines && |Join(lines)| == Total(lines) + |lines| - 1
  {
    if |lines| == 1 {
      OneLineSplits(lines[0]);
      assert lines[1..] == [];
    } else {
      JoinExact(lines[1..]);
      FirstLine(lines[0], Join(lines[1..]));
    }
  }

  lemma FirstLine(line: string, next: string)
    requires OneLine(line)
    ensures Split(LineEnds(), line + "\n" + next) == [line] + Split(LineEnds(), next)
  {
    MatchersAreLocal();
    forall q: nat | q < |line| ensures !Hit(LineEnds(), line + ("\n" + next), q) {
      NoLineEndIn(line, "\n" + next, q);
    }
    SplitFirst(LineEnds(), line, "\n", next);
    assert line + "\n" + next == line + ("\n" + next);
  }

  /** The end mark alone is the end of the stream; every other text is a payload
      with one line for each data line, without its leading blanks. */
  ghost predicate Carries(e: Event, lines: seq<string>) {
    exists data: seq<string>, text: string :: CarriesAs(e, lines, data, text)
  }

  ghost predicate CarriesAs(e: Event, lines: seq<string>, data: seq<string>, text: string) {
    && |data| == |lines| && (forall k :: 0 <= k < |lines| ==> Cleared(lines[k], data[k]))
    && Split(LineEnds(), text) == data && |text| == Total(data) + |data| - 1
    && e == if text == "[DONE]" then Done else Payload(text)
  }

  lemma {:induction false} TrimmedExact(lines: seq<string>)
    requires forall k :: 0 <= k < |lines| ==> OneLine(lines[k])
    ensures var data := Trimmed(lines);
      |data| == |lines| && forall k :: 0 <= k < |lines| ==> Cleared(lines[k], data[k]) && OneLine(data[k])
  {
    if lines != [] {
      TrimStartExact(lines[0]);
      TrimmedExact(lines[1..]);
      assert forall k :: 0 < k < |lines| ==> Trimmed(lines)[k] == Trimmed(lines[1..])[k - 1];
    }
  }

  lemma EventCarries(lines: seq<string>)
    requires Message(lines)
    ensures Carries(EventOf(Join(Trimmed(lines))), lines)
  {
    TrimmedExact(lines);
    JoinExact(Trimmed(lines));
    assert CarriesAs(EventOf(Join(Trimmed(lines))), lines, Trimmed(lines), Join(Trimmed(lines)));
  }

  lemma {:induction false} DeliveredAt(messages: seq<seq<string>>, k: nat)
    requires k < |messages|
    ensures |Delivered(messages)| == |messages| && Delivered(messages)[k] == EventOf(Join(Trimmed(messages[k])))
  {
    if |messages| > 1 {
      DeliveredAt(messages[1..], if k > 0 then k - 1 else 0);
    }
  }

  /** One event for each message, in order, each carrying its message. */
  lemma DeliveredExactly(messages: seq<seq<string>>)
    requires forall k :: 0 <= k < |messages| ==> Message(messages[k])
    ensures |Delivered(messages)| == |messages|
    ensures forall k :: 0 <= k < |messages| ==> Carries(Delivered(messages)[k], messages[k])
  {
    if messages != [] {
      DeliveredAt(messages, 0);
    }
    forall k | 0 <= k < |messages| ensures Carries(Delivered(messages)[k], messages[k]) {
      DeliveredAt(messages, k);
      EventCarries(messages[k]);
    }
  }

  // ---------- other lines ----------

  /** Does the line begin with the data field? */
  ghost function HasData(lines: seq<string>): int -> bool {
    k => 0 <= k < |lines| && "data:" <= lines[k]
  }

  /** The text after the field name of a line, without its leading blanks. */
  ghost function FieldOf(lines: seq<string>): (int, string) -> bool {
    (k, datum) => 0 <= k < |lines| && "data:" <= lines[k] && Cleared(lines[k][5..], datum)
  }

  /** A frame's data come from exactly the lines that begin with the data field. */
  lemma {:induction false} DataLinesExact(lines: seq<string>) returns (places: seq<int>)
    ensures PlacesOf(|lines|, HasData(lines), places) && Matching(FieldOf(lines), places, DataLines(lines))
  {
    places := [];
    if lines != [] {
      var first := HasData(lines)(0);
      var later := DataLinesExact(lines[1..]);
      var data := if first then [TrimStart(lines[0][5..])] else [];
      places := WithFirst(data != [], later);
      LinesMove(lines);
      PlacesMove(|lines| - 1, HasData(lines[1..]), later, HasData(lines));
      if first {
        TrimStartExact(lines[0][5..]);
      }
      MatchingMoves(FieldOf(lines[1..]), later, DataLines(lines[1..]), FieldOf(lines), data);
      assert DataLines(lines) == data + DataLines(lines[1..]);
    }
  }

  lemma LinesMove(lines: seq<string>)
    requires lines != []
    ensures forall k :: 0 <= k < |lines| - 1 ==> HasData(lines)(k + 1) == HasData(lines[1..])(k)
    ensures forall k, datum :: FieldOf(lines[1..])(k, datum) ==> FieldOf(lines)(k + 1, datum)
  {
  }
}
