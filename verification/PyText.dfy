/** Python's notion of blank text. */
module PyText {
  predicate IsSpace(c: char) {
    || c == ' ' || '\t' <= c <= '\r' || '\U{001C}' <= c <= '\U{001F}' || c == '\U{0085}' || c == '\U{00A0}'
    || c == '\U{1680}' || '\U{2000}' <= c <= '\U{200A}' || c == '\U{2028}' || c == '\U{2029}' || c == '\U{202F}'
    || c == '\U{205F}' || c == '\U{3000}'
  }

  /** Python's `str.strip`. */
  function Strip(s: string): string {
    if s == "" then ""
    else if IsSpace(s[0]) then Strip(s[1..])
    else if IsSpace(s[|s| - 1]) then Strip(s[..|s| - 1])
    else s
  }

  predicate Blank(s: string) {
    Strip(s) == ""
  }

  lemma {:induction false} StripAgain(s: string)
    ensures Strip(Strip(s)) == Strip(s)
  {
    if s != "" {
      if IsSpace(s[0]) {
        StripAgain(s[1..]);
      } else if IsSpace(s[|s| - 1]) {
        StripAgain(s[..|s| - 1]);
      }
    }
  }

  /** A text that does not begin with a blank is not blank. */
  lemma {:induction false} StripKeepsStart(s: string)
    requires s != "" && !IsSpace(s[0])
    ensures Strip(s) != ""
  {
    if IsSpace(s[|s| - 1]) {
      StripKeepsStart(s[..|s| - 1]);
    }
  }

  /** The code points that Python's `str.isspace` accepts. */
  const SPACES: set<int> := {
    0x9, 0xA, 0xB, 0xC, 0xD, 0x1C, 0x1D, 0x1E, 0x1F, 0x20, 0x85, 0xA0, 0x1680, 0x2000, 0x2001, 0x2002, 0x2003, 0x2004,
    0x2005, 0x2006, 0x2007, 0x2008, 0x2009, 0x200A, 0x2028, 0x2029, 0x202F, 0x205F, 0x3000}

  lemma SpacesExact(c: char)
    ensures IsSpace(c) <==> c as int in SPACES
  {
    assert '\t' as int == 0x9 && '\r' as int == 0xD && ' ' as int == 0x20;
    assert '\U{001C}' as int == 0x1C && '\U{001F}' as int == 0x1F;
    assert '\U{2000}' as int == 0x2000 && '\U{200A}' as int == 0x200A;
  }

  /** `s[lo..hi]` is what is left of `s` without the spaces at either end. */
  ghost predicate Core(space: char -> bool, s: string, lo: nat, hi: nat) {
    && lo <= hi <= |s|
    && (forall k :: 0 <= k < lo || hi <= k < |s| ==> space(s[k]))
    && (lo < hi ==> !space(s[lo]) && !space(s[hi - 1]))
  }

  lemma CoreAfterFirst(space: char -> bool, s: string, lo: nat, hi: nat)
    requires s != "" && space(s[0]) && Core(space, s[1..], lo, hi)
    ensures Core(space, s, lo + 1, hi + 1) && s[lo + 1..hi + 1] == s[1..][lo..hi]
  {
    forall k | 0 <= k < lo + 1 || hi + 1 <= k < |s| ensures space(s[k]) {
      assert k > 0 ==> s[1..][k - 1] == s[k];
    }
    var a, b := s[lo + 1..hi + 1], s[1..][lo..hi];
    forall k | 0 <= k < hi - lo ensures a[k] == b[k] {
      assert s[1..][lo + k] == s[lo + 1 + k];
    }
    assert a == b;
  }

  lemma CoreBeforeLast(space: char -> bool, s: string, lo: nat, hi: nat)
    requires s != "" && space(s[|s| - 1]) && Core(space, s[..|s| - 1], lo, hi)
    ensures Core(space, s, lo, hi) && s[lo..hi] == s[..|s| - 1][lo..hi]
  {
    forall k | 0 <= k < lo || hi <= k < |s| ensures space(s[k]) {
      assert k < |s| - 1 ==> s[..|s| - 1][k] == s[k];
    }
    assert s[lo..hi] == s[..|s| - 1][lo..hi];
  }

  ghost function SpaceTest(): char -> bool {
    c => c as int in SPACES
  }

  /** Stripping takes the spaces at either end, all of them and nothing else. */
  lemma {:induction false} StripExact(s: string) returns (lo: nat, hi: nat)
    ensures Core(SpaceTest(), s, lo, hi) && Strip(s) == s[lo..hi]
  {
    lo, hi := 0, |s|;
    if s != "" {
      SpacesExact(s[0]);
      SpacesExact(s[|s| - 1]);
      if IsSpace(s[0]) {
        var i, j := StripExact(s[1..]);
        CoreAfterFirst(SpaceTest(), s, i, j);
        lo, hi := i + 1, j + 1;
      } else if IsSpace(s[|s| - 1]) {
        lo, hi := StripExact(s[..|s| - 1]);
        CoreBeforeLast(SpaceTest(), s, lo, hi);
      }
    }
  }
}
