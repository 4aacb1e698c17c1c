/** Merging short markdown pieces under one heading. */
module DocumentSplitter {
  import opened Segmentation

  const SEPARATOR: string := "\n\n"

  /** The h1, h2 and h3 titles of a piece. */
  datatype HeadingKey = HeadingKey(h1: string, h2: string, h3: string)

  class Document {
    var pageContent: string
    const heading: HeadingKey

    constructor (content: string, heading: HeadingKey)
      ensures pageContent == content && this.heading == heading
    {
      pageContent := content;
      this.heading := heading;
    }

    function AsPiece(): Piece
      reads this
    {
      Piece(pageContent, heading)
    }
  }

  datatype Piece = Piece(content: string, heading: HeadingKey)

  predicate CanAbsorb(cur: Piece, next: Piece, chunkSize: int, minSize: int) {
    && cur.heading == next.heading
    && |next.content| < minSize
    && |cur.content| < chunkSize * 2
  }

  /** The specification of the merge loop: `cur` is `current_doc`. */
  function MergeSmall(cur: Piece, rest: seq<Piece>, chunkSize: int, minSize: int): seq<Piece>
    decreases |rest|
  {
    if rest == [] then [cur]
    else if CanAbsorb(cur, rest[0], chunkSize, minSize) then
      MergeSmall(cur.(content := cur.content + (SEPARATOR + rest[0].content)), rest[1..], chunkSize, minSize)
    else
      [cur] + MergeSmall(rest[0], rest[1..], chunkSize, minSize)
  }

  function MergeSmallAll(pieces: seq<Piece>, chunkSize: int, minSize: int): seq<Piece> {
    if pieces == [] then [] else MergeSmall(pieces[0], pieces[1..], chunkSize, minSize)
  }

  ghost function Pieces(docs: seq<Document>): seq<Piece>
    reads docs
  {
    seq(|docs|, i requires 0 <= i < |docs| reads docs => docs[i].AsPiece())
  }

  ghost predicate AllDifferent(documents: seq<Document>) {
    forall i, j :: 0 <= i < j < |documents| ==> documents[i] != documents[j]
  }

  /** Works on the documents themselves: a kept document grows in place. */
  method MergeSmallChunks(documents: seq<Document>, chunkSize: int, minSize: int) returns (merged: seq<Document>)
    requires AllDifferent(documents)
    modifies documents
    ensures Pieces(merged) == MergeSmallAll(old(Pieces(documents)), chunkSize, minSize)
    ensures forall d :: d in merged ==> d in documents
  {
    merged := [];
    if documents == [] {
      return;
    }
    ghost var given := Pieces(documents);
    var current := documents[0];
    // The pieces of `merged` and of `current`, and where they sit in `documents`.
    ghost var out, cur := [], given[0];
    ghost var places: seq<nat>, place: nat := [], 0;
    for i := 1 to |documents|
      invariant place < i && current == documents[place]
      invariant Taken(documents, merged, places)
      invariant Placed(given, Pieces(documents), i, out, cur, places, place)
      invariant Merging(given, i, out, cur, chunkSize, minSize)
    {
      var doc := documents[i];
      ghost var now := Pieces(documents);
      MergeStep(given, i, out, cur, chunkSize, minSize);
      assert now[i] == given[i] && now[place] == cur;
      if current.heading == doc.heading && |doc.pageContent| < minSize && |current.pageContent| < chunkSize * 2 {
        Grow(documents, place, current, doc.pageContent);
        cur := cur.(content := cur.content + (SEPARATOR + given[i].content));
        GrowPlaced(given, now, i, out, cur, places, place);
      } else {
        ClosePlaced(given, now, i, out, cur, places, place);
        merged := merged + [current];
        current := doc;
        out, places := out + [cur], places + [place];
        cur, place := given[i], i;
      }
    }
    EndPlaced(documents, given, merged, out, cur, places, place);
    merged := merged + [current];
  }

  /** The document takes in the text of another. */
  method Grow(ghost documents: seq<Document>, ghost place: nat, current: Document, text: string)
    requires AllDifferent(documents) && place < |documents| && current == documents[place]
    modifies current
    ensures Pieces(documents) == old(Pieces(documents))[
      place := Piece(old(current.pageContent) + (SEPARATOR + text), current.heading)]
  {
    current.pageContent := current.pageContent + (SEPARATOR + text);
  }

  /** Before document `i`, with the pieces `now`: the closed ones are `out`, the open
      one is `cur`, and those to come are as given. */
  ghost predicate Placed(given: seq<Piece>, now: seq<Piece>, i: nat, out: seq<Piece>, cur: Piece, places: seq<nat>,
                         place: nat)
  {
    && place < i <= |now| == |given| && now[place] == cur
    && |out| == |places| && (forall k :: 0 <= k < |places| ==> places[k] < place && now[places[k]] == out[k])
    && (forall k :: i <= k < |now| ==> now[k] == given[k])
  }

  ghost predicate Taken(documents: seq<Document>, merged: seq<Document>, places: seq<nat>) {
    && |merged| == |places|
    && forall k :: 0 <= k < |places| ==> places[k] < |documents| && merged[k] == documents[places[k]]
  }

  lemma EndPlaced(documents: seq<Document>, given: seq<Piece>, merged: seq<Document>, out: seq<Piece>, cur: Piece,
                  places: seq<nat>, place: nat)
    requires Placed(given, Pieces(documents), |documents|, out, cur, places, place) && Taken(documents, merged, places)
    ensures Pieces(merged + [documents[place]]) == out + [cur]
    ensures forall d :: d in merged + [documents[place]] ==> d in documents
  {
    forall k | 0 <= k < |places| ensures Pieces(documents)[places[k]] == merged[k].AsPiece() {
    }
  }

  /** The open document has grown by document `i`. */
  lemma GrowPlaced(given: seq<Piece>, now: seq<Piece>, i: nat, out: seq<Piece>, grown: Piece, places: seq<nat>,
                   place: nat)
    requires i < |given| && place < |now| && Placed(given, now, i, out, now[place], places, place)
    ensures Placed(given, now[place := grown], i + 1, out, grown, places, place)
  {
  }

  /** The open document is closed and document `i` opened. */
  lemma ClosePlaced(given: seq<Piece>, now: seq<Piece>, i: nat, out: seq<Piece>, cur: Piece, places: seq<nat>,
                    place: nat)
    requires i < |given| && Placed(given, now, i, out, cur, places, place)
    ensures Placed(given, now, i + 1, out + [cur], given[i], places + [place], i)
  {
  }

  /** The merge loop before piece `i`: `out` is closed and `cur` is open. */
  ghost predicate Merging(given: seq<Piece>, i: nat, out: seq<Piece>, cur: Piece, chunkSize: int, minSize: int)
    requires i <= |given|
  {
    MergeSmallAll(given, chunkSize, minSize) == out + MergeSmall(cur, given[i..], chunkSize, minSize)
  }

  lemma MergeStep(given: seq<Piece>, i: nat, out: seq<Piece>, cur: Piece, chunkSize: int, minSize: int)
    requires i < |given| && Merging(given, i, out, cur, chunkSize, minSize)
    ensures CanAbsorb(cur, given[i], chunkSize, minSize) ==>
      Merging(given, i + 1, out, cur.(content := cur.content + (SEPARATOR + given[i].content)), chunkSize, minSize)
    ensures !CanAbsorb(cur, given[i], chunkSize, minSize) ==>
      Merging(given, i + 1, out + [cur], given[i], chunkSize, minSize)
  {
    assert given[i..][0] == given[i] && given[i..][1..] == given[i + 1..];
  }

  /** The exact limit: a piece just under `2 * chunkSize` absorbs the largest
      short piece and a separator. */
  function Limit(chunkSize: int, minSize: int): int {
    chunkSize * 2 + if minSize <= 0 then 0 else if minSize <= chunkSize * 2 + 1 then minSize else chunkSize * 2 + 1
  }

  lemma {:induction false} MergedSize(cur: Piece, rest: seq<Piece>, chunkSize: int, minSize: int)
    requires |cur.content| <= Limit(chunkSize, minSize)
    requires forall k :: 0 <= k < |rest| ==> |rest[k].content| <= chunkSize * 2
    ensures forall q :: q in MergeSmall(cur, rest, chunkSize, minSize) ==> |q.content| <= Limit(chunkSize, minSize)
    decreases |rest|
  {
    if rest != [] {
      if CanAbsorb(cur, rest[0], chunkSize, minSize) {
        MergedSize(cur.(content := cur.content + (SEPARATOR + rest[0].content)), rest[1..], chunkSize, minSize);
      } else {
        MergedSize(rest[0], rest[1..], chunkSize, minSize);
      }
    }
  }

  /** If every piece is at most `2 * chunkSize`, every merged piece is at most
      `2 * chunkSize + minSize`. */
  lemma MergedSizeBound(pieces: seq<Piece>, chunkSize: int, minSize: int)
    requires forall q :: q in pieces ==> |q.content| <= chunkSize * 2
    ensures forall q :: q in MergeSmallAll(pieces, chunkSize, minSize) ==> |q.content| <= Limit(chunkSize, minSize)
  {
    if pieces != [] {
      MergedSize(pieces[0], pieces[1..], chunkSize, minSize);
    }
  }

  /** The limit is attained for all positive sizes, so the documented
      `2 * chunkSize` is not a bound. */
  lemma MergedSizeTight(chunkSize: int, minSize: int, heading: HeadingKey) returns (pieces: seq<Piece>)
    requires chunkSize >= 1 && minSize >= 1
    ensures forall q :: q in pieces ==> |q.content| <= chunkSize * 2
    ensures exists q :: q in MergeSmallAll(pieces, chunkSize, minSize) && |q.content| == Limit(chunkSize, minSize)
    ensures Limit(chunkSize, minSize) > chunkSize * 2
  {
    var a := Piece(seq(chunkSize * 2 - 1, _ => 'a'), heading);
    var b := Piece(seq(Limit(chunkSize, minSize) - chunkSize * 2 - 1, _ => 'b'), heading);
    pieces := [a, b];
    assert CanAbsorb(a, b, chunkSize, minSize);
    var q := a.(content := a.content + (SEPARATOR + b.content));
    assert pieces[1..] == [b] && [b][1..] == [];
    assert MergeSmall(q, [], chunkSize, minSize) == [q];
    assert MergeSmall(a, [b], chunkSize, minSize) == MergeSmall(q, [b][1..], chunkSize, minSize);
    assert q in MergeSmallAll(pieces, chunkSize, minSize);
  }

  /** Nothing is absorbed without room in a piece or without short pieces. */
  lemma {:induction false} NothingAbsorbed(cur: Piece, rest: seq<Piece>, chunkSize: int, minSize: int)
    requires chunkSize <= 0 || minSize <= 0
    ensures MergeSmall(cur, rest, chunkSize, minSize) == [cur] + rest
    decreases |rest|
  {
    if rest != [] {
      NothingAbsorbed(rest[0], rest[1..], chunkSize, minSize);
      assert [rest[0]] + rest[1..] == rest;
    }
  }

  ghost predicate Within(pieces: seq<Piece>, size: int) {
    forall q :: q in pieces ==> |q.content| <= size
  }

  /** The documented bound, twice the chunk size, holds for all pieces that meet it
      exactly when one of the sizes is not positive, and then nothing is merged. */
  lemma DocumentedBoundExactly(chunkSize: int, minSize: int)
    ensures (forall pieces :: Within(pieces, chunkSize * 2) ==>
               Within(MergeSmallAll(pieces, chunkSize, minSize), chunkSize * 2)) <==>
            chunkSize <= 0 || minSize <= 0
    ensures chunkSize <= 0 || minSize <= 0 ==> forall pieces :: MergeSmallAll(pieces, chunkSize, minSize) == pieces
  {
    if chunkSize <= 0 || minSize <= 0 {
      forall pieces ensures MergeSmallAll(pieces, chunkSize, minSize) == pieces {
        if pieces != [] {
          NothingAbsorbed(pieces[0], pieces[1..], chunkSize, minSize);
        }
      }
    } else {
      var pieces := MergedSizeTight(chunkSize, minSize, HeadingKey("", "", ""));
      assert Within(pieces, chunkSize * 2) && !Within(MergeSmallAll(pieces, chunkSize, minSize), chunkSize * 2);
    }
  }

  // ---------- what is merged with what ----------

  /** The consecutive groups the loop forms; `group` is in progress. */
  function SmallGroups(group: seq<Piece>, rest: seq<Piece>, chunkSize: int, minSize: int): seq<seq<Piece>>
    requires group != []
    decreases |rest|
  {
    if rest == [] then [group]
    else if CanAbsorb(Piece(Glued(group), group[0].heading), rest[0], chunkSize, minSize) then
      SmallGroups(group + [rest[0]], rest[1..], chunkSize, minSize)
    else
      [group] + SmallGroups([rest[0]], rest[1..], chunkSize, minSize)
  }

  function Glued(group: seq<Piece>): string {
    if group == [] then ""
    else if |group| == 1 then group[0].content
    else Glued(group[..|group| - 1]) + (SEPARATOR + group[|group| - 1].content)
  }

  /** A group has one heading, and only short pieces after its first. */
  ghost predicate OneSection(group: seq<Piece>, minSize: int) {
    && group != []
    && (forall k :: 0 <= k < |group| ==> group[k].heading == group[0].heading)
    && (forall k :: 1 <= k < |group| ==> |group[k].content| < minSize)
  }

  ghost predicate GroupMakes(group: seq<Piece>, out: Piece, minSize: int) {
    OneSection(group, minSize) && out == Piece(Glued(group), group[0].heading)
  }

  /** The groups make up the pieces, and each output is its group with separators. */
  ghost predicate Grouped(groups: seq<seq<Piece>>, out: seq<Piece>, pieces: seq<Piece>, minSize: int) {
    && Concat(groups) == pieces
    && |out| == |groups|
    && forall k :: 0 <= k < |groups| ==> GroupMakes(groups[k], out[k], minSize)
  }

  lemma GroupedFirst(group: seq<Piece>, groups: seq<seq<Piece>>, out: seq<Piece>, pieces: seq<Piece>, minSize: int)
    requires OneSection(group, minSize) && Grouped(groups, out, pieces, minSize)
    ensures Grouped([group] + groups, [Piece(Glued(group), group[0].heading)] + out, group + pieces, minSize)
  {
    var all, outs := [group] + groups, [Piece(Glued(group), group[0].heading)] + out;
    assert all[1..] == groups;
    forall k | 0 <= k < |all| ensures GroupMakes(all[k], outs[k], minSize) {
      assert k > 0 ==> all[k] == groups[k - 1] && outs[k] == out[k - 1];
    }
  }

  /** Merging partitions the pieces into consecutive groups of one heading each
      and only inserts separators. */
  lemma {:induction false} MergedGroups(group: seq<Piece>, rest: seq<Piece>, chunkSize: int, minSize: int)
    requires OneSection(group, minSize)
    ensures Grouped(SmallGroups(group, rest, chunkSize, minSize),
                    MergeSmall(Piece(Glued(group), group[0].heading), rest, chunkSize, minSize), group + rest, minSize)
    decreases |rest|
  {
    if rest == [] {
      assert Grouped([], [], [], minSize);
      GroupedFirst(group, [], [], [], minSize);
    } else if CanAbsorb(Piece(Glued(group), group[0].heading), rest[0], chunkSize, minSize) {
      var next := group + [rest[0]];
      assert next[..|group|] == group && next + rest[1..] == group + rest;
      MergedGroups(next, rest[1..], chunkSize, minSize);
    } else {
      var first := [rest[0]];
      MergedGroups(first, rest[1..], chunkSize, minSize);
      assert first + rest[1..] == rest;
      GroupedFirst(group, SmallGroups(first, rest[1..], chunkSize, minSize),
                   MergeSmall(Piece(Glued(first), first[0].heading), rest[1..], chunkSize, minSize), rest, minSize);
    }
  }

  // ---------- where merging stops ----------

  /** Before it took in its last piece the group was below twice the chunk size. */
  ghost predicate MayGrow(group: seq<Piece>, chunkSize: int) {
    |group| > 1 ==> |Glued(group[..|group| - 1])| < 2 * chunkSize
  }

  /** A piece starts a new group: another heading, a long piece, or a full group. */
  ghost predicate Apart(group: seq<Piece>, next: Piece, chunkSize: int, minSize: int)
    requires group != []
  {
    next.heading != group[0].heading || |next.content| >= minSize || |Glued(group)| >= 2 * chunkSize
  }

  /** Every group grew only while there was room, and no piece that could have been
      taken in starts a group of its own. */
  ghost predicate StopsRight(groups: seq<seq<Piece>>, chunkSize: int, minSize: int) {
    && (forall k :: 0 <= k < |groups| ==> groups[k] != [] && MayGrow(groups[k], chunkSize))
    && (forall k :: 0 < k < |groups| ==> Apart(groups[k - 1], groups[k][0], chunkSize, minSize))
  }

  lemma {:induction false} MergingStops(group: seq<Piece>, rest: seq<Piece>, chunkSize: int, minSize: int)
    requires group != [] && MayGrow(group, chunkSize)
    ensures var groups := SmallGroups(group, rest, chunkSize, minSize);
      groups != [] && StopsRight(groups, chunkSize, minSize) && group <= groups[0]
    decreases |rest|
  {
    if rest != [] {
      if CanAbsorb(Piece(Glued(group), group[0].heading), rest[0], chunkSize, minSize) {
        var next := group + [rest[0]];
        assert next[..|next| - 1] == group;
        MergingStops(next, rest[1..], chunkSize, minSize);
      } else {
        MergingStops([rest[0]], rest[1..], chunkSize, minSize);
        var later := SmallGroups([rest[0]], rest[1..], chunkSize, minSize);
        assert later[0][0] == rest[0];
        assert forall k :: 0 < k <= |later| ==> ([group] + later)[k] == later[k - 1];
      }
    }
  }
}
