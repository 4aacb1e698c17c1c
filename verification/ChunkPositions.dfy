/** Where the cuts of a text lie, in positions of the text itself: lines and
    sentences end after given characters, and pieces meet only there or inside a
    stretch between two such ends that is over the limit. */
module ChunkPositions {
  import opened Segmentation
  import opened ChunkText

  /** Code points after which `str.splitlines` ends a line: LF, VT, FF, CR, the
      separators FS, GS and RS, NEL, LS and PS. */
  const LINE_ENDS: set<int> := {10, 11, 12, 13, 28, 29, 30, 133, 8232, 8233}

  /** The ideographic full stop, both exclamation marks and both question marks. */
  const SENTENCE_ENDS: set<int> := {12290, 65281, 33, 65311, 63}

  /** A line ends before position `x`, not between a carriage return and its line feed. */
  predicate LineEndAt(text: string, x: int) {
    && 0 < x < |text|
    && text[x - 1] as int in LINE_ENDS
    && !(text[x - 1] as int == 13 && text[x] as int == 10)
  }

  predicate SentenceEndAt(text: string, x: int) {
    0 < x < |text| && text[x - 1] as int in SENTENCE_ENDS
  }

  /** One of the units ends at position `x` of their concatenation. */
  ghost predicate EndsAt(units: seq<string>, x: int)
    decreases |units|
  {
    units != [] && (x == |units[0]| || EndsAt(units[1..], x - |units[0]|))
  }

  ghost predicate NonEmpty(units: seq<string>) {
    forall k :: 0 <= k < |units| ==> units[k] != ""
  }

  lemma {:induction false} EndsInside(units: seq<string>, x: int)
    requires NonEmpty(units) && EndsAt(units, x)
    ensures 0 < x <= |Concat(units)|
    decreases |units|
  {
    if x != |units[0]| {
      EndsInside(units[1..], x - |units[0]|);
    }
  }

  lemma EndsThen(unit: string, units: seq<string>, x: int)
    ensures EndsAt([unit] + units, x) <==> x == |unit| || EndsAt(units, x - |unit|)
  {
    assert ([unit] + units)[1..] == units;
  }

  lemma ClosedEnds(buffer: string, x: int)
    ensures EndsAt(Closed(buffer), x) <==> buffer != "" && x == |buffer|
  {
  }

  // ---------- lines ----------

  lemma EndsLineByCode(c: char)
    ensures EndsLine(c) <==> c as int in LINE_ENDS
  {
  }

  lemma LineEndHere(text: string, y: int)
    requires 0 < y < |text|
    ensures LineEndAt(text, y) <==> EndsLine(text[y - 1]) && !CrLfAt(text, y - 1)
  {
    EndsLineByCode(text[y - 1]);
  }

  /** A line loop at `i` with a line open at `start`: it goes on, or closes the line
      where `ends` says so or the text stops. */
  ghost predicate LoopAt(text: string, ends: int -> bool, lines: (int, int) -> seq<string>, start: int, i: int)
    requires 0 <= start <= i < |text|
  {
    && NonEmpty(lines(start, i))
    && if i + 1 == |text| then lines(start, i) == [text[start..]]
       else if ends(i + 1) then lines(start, i) == [text[start..i + 1]] + lines(i + 1, i + 1)
       else lines(start, i) == lines(start, i + 1)
  }

  lemma {:induction false} LoopEnds(text: string, ends: int -> bool, lines: (int, int) -> seq<string>, start: nat,
                                    i: nat, x: int)
    requires forall s, j :: 0 <= s <= j < |text| ==> LoopAt(text, ends, lines, s, j)
    requires start <= i < |text| && 0 < x < |text| - start
    requires forall y :: start < y <= i ==> !ends(y)
    ensures EndsAt(lines(start, i), x) <==> ends(start + x)
    decreases |text| - i
  {
    assert LoopAt(text, ends, lines, start, i);
    if i + 1 == |text| {
      EndsThen(text[start..], [], x);
    } else if !ends(i + 1) {
      LoopEnds(text, ends, lines, start, i + 1, x);
    } else {
      var n := i + 1 - start;
      assert LoopAt(text, ends, lines, i + 1, i + 1);
      EndsThen(text[start..i + 1], lines(i + 1, i + 1), x);
      if EndsAt(lines(i + 1, i + 1), x - n) {
        EndsInside(lines(i + 1, i + 1), x - n);
      }
      if x > n {
        LoopEnds(text, ends, lines, i + 1, i + 1, x - n);
      }
    }
  }

  /** The lines from a place, as a function of the places alone. */
  ghost function LineLoop(text: string): (int, int) -> seq<string> {
    (s: int, i: int) => if 0 <= s <= i <= |text| then LinesFrom(text, s, i) else []
  }

  lemma LineLoopAt(text: string, ends: int -> bool, start: nat, i: nat)
    requires start <= i < |text|
    requires i + 1 < |text| ==> (ends(i + 1) <==> EndsLine(text[i]) && !CrLfAt(text, i))
    ensures LoopAt(text, ends, LineLoop(text), start, i)
  {
    LinesFromExact(text, start, i);
    if i + 1 == |text| {
      assert text[start..i + 1] == text[start..];
      assert text[i + 1..] == "";
    }
  }

  /** Inside the text a line ends exactly after a line end that is not the first half
      of one. */
  lemma LinesEndExactly(text: string, x: int)
    requires 0 < x < |text|
    ensures EndsAt(Lines(text), x) <==> LineEndAt(text, x)
  {
    var ends := y => LineEndAt(text, y);
    forall s, i | 0 <= s <= i < |text| ensures LoopAt(text, ends, LineLoop(text), s, i) {
      if i + 1 < |text| {
        LineEndHere(text, i + 1);
      }
      LineLoopAt(text, ends, s, i);
    }
    LoopEnds(text, ends, LineLoop(text), 0, 0, x);
  }

  // ---------- sentences ----------

  lemma {:induction false} SentencesFromEnd(text: string, start: nat, i: nat, x: int)
    requires start <= i <= |text| && 0 < x < |text| - start
    requires forall y :: start < y <= i ==> !SentenceEndAt(text, y)
    ensures EndsAt(SentencesFrom(text, start, i), x) <==> SentenceEndAt(text, start + x)
    decreases |text| - i
  {
    if i == |text| {
      ClosedEnds(text[start..], x);
    } else if !EndsSentence(text[i]) {
      SentencesFromEnd(text, start, i + 1, x);
    } else {
      var sentence, later := text[start..i + 1], SentencesFrom(text, i + 1, i + 1);
      EndsThen(sentence, later, x);
      if x > |sentence| {
        SentencesFromEnd(text, i + 1, i + 1, x - |sentence|);
      } else {
        SentencesFromExact(text, i + 1, i + 1);
        if EndsAt(later, x - |sentence|) {
          EndsInside(later, x - |sentence|);
        }
      }
    }
  }

  /** Inside the text a sentence ends exactly after one of the five marks. */
  lemma SentencesEndExactly(text: string, x: int)
    requires 0 < x < |text|
    ensures EndsAt(Sentences(text), x) <==> SentenceEndAt(text, x)
  {
    SentencesFromEnd(text, 0, 0, x);
  }

  // ---------- where pieces meet ----------

  /** A stretch between neighbouring ends, around `x`, that is over the limit. */
  ghost predicate OverStretch(m: Measure, limit: int, units: seq<string>, x: int, a: int, b: int) {
    && 0 <= a < x < b <= |Concat(units)|
    && (a == 0 || EndsAt(units, a)) && EndsAt(units, b)
    && (forall y :: a < y < b ==> !EndsAt(units, y))
    && m.Size(Concat(units)[a..b]) > limit
  }

  lemma OverStretchShift(m: Measure, limit: int, units: seq<string>, x: int, a: int, b: int)
    requires units != [] && NonEmpty(units) && OverStretch(m, limit, units[1..], x, a, b)
    ensures OverStretch(m, limit, units, |units[0]| + x, |units[0]| + a, |units[0]| + b)
  {
    var n, later := |units[0]|, Concat(units[1..]);
    assert Concat(units)[n + a..n + b] == later[a..b];
    forall y | n + a < y < n + b ensures !EndsAt(units, y) {
      assert !EndsAt(units[1..], y - n);
    }
    assert EndsAt(units, n + b);
    assert a == 0 || EndsAt(units[1..], n + a - n);
  }

  lemma NoEndInFirst(units: seq<string>)
    requires NonEmpty(units) && units != []
    ensures forall y :: 0 < y < |units[0]| ==> !EndsAt(units, y)
  {
    forall y | 0 < y < |units[0]| ensures !EndsAt(units, y) {
      if EndsAt(units, y) {
        EndsInside(units[1..], y - |units[0]|);
      }
    }
  }

  lemma {:induction false} LegalCutStretch(m: Measure, limit: int, units: seq<string>, x: int) returns (a: int, b: int)
    requires NonEmpty(units) && LegalCut(m, limit, units, x) && x > 0 && !EndsAt(units, x)
    ensures OverStretch(m, limit, units, x, a, b)
    decreases |units|
  {
    var n := |units[0]|;
    if x < n {
      a, b := 0, n;
      assert Concat(units)[0..n] == units[0];
      NoEndInFirst(units);
    } else {
      a, b := LegalCutStretch(m, limit, units[1..], x - n);
      OverStretchShift(m, limit, units, x - n, a, b);
      a, b := n + a, n + b;
    }
  }

  /** From one line end to the next, around `x`, the text is over the cap. */
  ghost predicate OverLine(text: string, maxBytes: int, x: int, a: int, b: int) {
    && 0 <= a < x < b <= |text| && Bytes(text[a..b]) > maxBytes
    && (a == 0 || LineEndAt(text, a)) && (b == |text| || LineEndAt(text, b))
    && (forall y :: a < y < b ==> !LineEndAt(text, y))
  }

  /** Two pieces of the byte cut meet where a line ends, or inside a line that is alone
      over the cap. */
  lemma BytePiecesMeet(text: string, maxBytes: int, k: nat)
    requires 0 < k <= |BytePieces(text, maxBytes)|
    ensures var x := |Concat(BytePieces(text, maxBytes)[..k])|;
      0 < x < |text| ==> LineEndAt(text, x) || exists a, b :: OverLine(text, maxBytes, x, a, b)
  {
    var x := |Concat(BytePieces(text, maxBytes)[..k])|;
    ByteSafeSplitCorrect(text, maxBytes);
    LinesFromExact(text, 0, 0);
    if 0 < x < |text| {
      LinesEndExactly(text, x);
      if !LineEndAt(text, x) {
        var a, b := LegalCutStretch(Utf8, maxBytes, Lines(text), x);
        forall y | 0 < y < |text| ensures EndsAt(Lines(text), y) <==> LineEndAt(text, y) {
          LinesEndExactly(text, y);
        }
        assert OverLine(text, maxBytes, x, a, b);
      }
    }
  }

  /** From one sentence end to the next, around `x`, the text is over the limit. */
  ghost predicate OverSentence(text: string, maxSize: int, x: int, a: int, b: int) {
    && 0 <= a < x < b <= |text| && b - a > maxSize
    && (a == 0 || SentenceEndAt(text, a)) && (b == |text| || SentenceEndAt(text, b))
    && (forall y :: a < y < b ==> !SentenceEndAt(text, y))
  }

  /** Two pieces of a split text meet where a sentence ends, or inside a sentence that
      is alone over the limit. */
  lemma TextPiecesMeet(text: string, maxSize: int, k: nat)
    requires maxSize >= 1 && 0 < k <= |SplitPieces(text, maxSize)|
    ensures var x := |Concat(SplitPieces(text, maxSize)[..k])|;
      0 < x < |text| ==> SentenceEndAt(text, x) || exists a, b :: OverSentence(text, maxSize, x, a, b)
  {
    var x := |Concat(SplitPieces(text, maxSize)[..k])|;
    SplitTextCorrect(text, maxSize);
    if 0 < x < |text| {
      SentencesExact(text);
      SentencesEndExactly(text, x);
      if !SentenceEndAt(text, x) {
        assert forall j :: 0 <= j < |Sentences(text)| ==> OneSentence(Sentences(text)[j]);
        var a, b := LegalCutStretch(Chars, maxSize, Sentences(text), x);
        forall y | 0 < y < |text| ensures EndsAt(Sentences(text), y) <==> SentenceEndAt(text, y) {
          SentencesEndExactly(text, y);
        }
        assert Chars.Size(text[a..b]) == |text[a..b]| == b - a;
        assert OverSentence(text, maxSize, x, a, b);
      }
    }
  }

  // ---------- octets ----------

  /** The bits a form of `w` octets carries, section 3 of RFC 3629. */
  function PayloadBits(w: nat): nat {
    if w <= 1 then 7 else (7 - (if w < 7 then w else 7)) + 6 * (w - 1)
  }

  function Power2(n: nat): nat {
    if n == 0 then 1 else 2 * Power2(n - 1)
  }

  lemma Powers()
    ensures Power2(PayloadBits(1)) == 128 && Power2(PayloadBits(2)) == 2048
    ensures Power2(PayloadBits(3)) == 65536 && Power2(PayloadBits(4)) == 2097152
  {
    assert Power2(4) == 16 && Power2(7) == 128 && Power2(11) == 16 * Power2(7);
    assert Power2(16) == 32 * Power2(11) && Power2(21) == 32 * Power2(16);
  }

  /** A character takes the least number of octets that can carry it. */
  lemma WidthIsLeast(c: char, w: nat)
    requires 1 <= w <= 4
    ensures c as int < Power2(PayloadBits(w)) <==> Width(c) <= w
  {
    Powers();
    assert w == 1 || w == 2 || w == 3 || w == 4;
  }
}
