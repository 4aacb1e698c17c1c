/** Greedy segmentation of a sequence.

    Every boundary algorithm of the chunk policy grows one segment item by item
    and closes it at the first item that does not fit.  `Segment` is that
    algorithm for an arbitrary fitness predicate; when fitness is inherited by
    sub-ranges, no segmentation into fitting segments is shorter. */
module Segmentation {

  function Concat<T>(parts: seq<seq<T>>): seq<T> {
    if parts == [] then [] else parts[0] + Concat(parts[1..])
  }

  lemma {:induction false} ConcatAppend<T>(a: seq<seq<T>>, b: seq<seq<T>>)
    ensures Concat(a + b) == Concat(a) + Concat(b)
  {
    if a == [] {
      assert a + b == b;
    } else {
      assert (a + b)[1..] == a[1..] + b;
      ConcatAppend(a[1..], b);
    }
  }

  /** The segment under construction is `buffer`; `rest` has not been read. */
  function Segment<T>(ok: seq<T> -> bool, buffer: seq<T>, rest: seq<T>): seq<seq<T>>
    decreases |rest|
  {
    if rest == [] then
      if buffer == [] then [] else [buffer]
    else if ok(buffer + [rest[0]]) then
      Segment(ok, buffer + [rest[0]], rest[1..])
    else
      [buffer] + Segment(ok, [rest[0]], rest[1..])
  }

  ghost predicate Hereditary<T(!new)>(ok: seq<T> -> bool) {
    forall s: seq<T>, i: nat, j: nat {:trigger ok(s[i..j])} :: i <= j <= |s| && ok(s) ==> ok(s[i..j])
  }

  ghost predicate AllOk<T>(ok: seq<T> -> bool, parts: seq<seq<T>>) {
    forall k :: 0 <= k < |parts| ==> ok(parts[k])
  }

  lemma {:induction false} SegmentConcat<T>(ok: seq<T> -> bool, buffer: seq<T>, rest: seq<T>)
    ensures Concat(Segment(ok, buffer, rest)) == buffer + rest
    decreases |rest|
  {
    if rest == [] {
      assert buffer + rest == buffer;
      if buffer != [] { assert Concat([buffer]) == buffer + Concat([]); }
    } else if ok(buffer + [rest[0]]) {
      SegmentConcat(ok, buffer + [rest[0]], rest[1..]);
      assert buffer + rest == buffer + [rest[0]] + rest[1..];
    } else {
      SegmentConcat(ok, [rest[0]], rest[1..]);
      var tail := Segment(ok, [rest[0]], rest[1..]);
      assert ([buffer] + tail)[1..] == tail;
      assert rest == [rest[0]] + rest[1..];
    }
  }

  /** When each single item fits, every segment fits and none is empty. */
  lemma {:induction false} SegmentFits<T>(ok: seq<T> -> bool, buffer: seq<T>, rest: seq<T>)
    requires buffer != [] ==> ok(buffer)
    requires forall k :: 0 <= k < |rest| ==> ok([rest[k]])
    ensures AllOk(ok, Segment(ok, buffer, rest))
    ensures forall k :: 0 <= k < |Segment(ok, buffer, rest)| ==> Segment(ok, buffer, rest)[k] != []
    decreases |rest|
  {
    if rest != [] {
      assert ok([rest[0]]);
      assert [] + [rest[0]] == [rest[0]];
      if ok(buffer + [rest[0]]) {
        SegmentFits(ok, buffer + [rest[0]], rest[1..]);
      } else {
        SegmentFits(ok, [rest[0]], rest[1..]);
      }
    }
  }

  lemma PrefixFits<T(!new)>(ok: seq<T> -> bool, first: seq<T>, all: seq<T>, i: nat, j: nat)
    requires Hereditary(ok)
    requires ok(first) && first <= all
    requires i <= j <= |all|
    ensures j <= |first| ==> ok(all[i..j])
  {
    if j <= |first| {
      assert ok(first[i..j]);
      assert first[i..j] == all[i..j];
    }
  }

  /** Greedy stays ahead: any fitting segmentation of a sequence that ends with
      the unread items has at least as many segments. */
  lemma {:induction false} SegmentFewest<T(!new)>(ok: seq<T> -> bool, buffer: seq<T>, rest: seq<T>,
                                                  pre: seq<T>, other: seq<seq<T>>)
    requires Hereditary(ok)
    requires AllOk(ok, other)
    requires Concat(other) == pre + (buffer + rest)
    ensures |Segment(ok, buffer, rest)| <= |other|
    decreases |rest|, |other|
  {
    if buffer + rest == [] {
      return;
    }
    assert other != [];
    var first, later := other[0], other[1..];
    var all := pre + (buffer + rest);
    assert first + Concat(later) == all;
    if |first| <= |pre| {
      assert Concat(later) == all[|first|..] == pre[|first|..] + (buffer + rest);
      SegmentFewest(ok, buffer, rest, pre[|first|..], later);
    } else if rest == [] {
      assert buffer != [];
    } else if ok(buffer + [rest[0]]) {
      assert buffer + rest == buffer + [rest[0]] + rest[1..];
      SegmentFewest(ok, buffer + [rest[0]], rest[1..], pre, other);
    } else {
      var k := |pre| + |buffer| + 1;
      assert all[|pre|..k] == buffer + [rest[0]];
      PrefixFits(ok, first, all, |pre|, k);
      assert Concat(later) == all[|first|..];
      assert all[|first|..] == (pre + buffer)[|first|..] + ([rest[0]] + rest[1..]);
      SegmentFewest(ok, [rest[0]], rest[1..], (pre + buffer)[|first|..], later);
    }
  }

  /** No segmentation into fitting segments is shorter than the greedy one. */
  lemma GreedyFewest<T(!new)>(ok: seq<T> -> bool, s: seq<T>, other: seq<seq<T>>)
    requires Hereditary(ok) && AllOk(ok, other) && Concat(other) == s
    ensures |Segment(ok, [], s)| <= |other|
  {
    assert s == [] + ([] + s);
    SegmentFewest(ok, [], s, [], other);
  }

  /** Fitting items concatenated: a fitting segmentation exists only if every
      single item fits. */
  lemma {:induction false} FittingItems<T(!new)>(ok: seq<T> -> bool, parts: seq<seq<T>>, k: nat)
    requires Hereditary(ok)
    requires AllOk(ok, parts)
    requires k < |Concat(parts)|
    ensures ok([Concat(parts)[k]])
  {
    var first := parts[0];
    if k < |first| {
      assert ok(first[k..k + 1]);
      assert first[k..k + 1] == [first[k]];
    } else {
      FittingItems(ok, parts[1..], k - |first|);
    }
  }
}
