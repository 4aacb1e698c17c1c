/** The places of a list at which something holds, in order. */
module Places {

  ghost predicate PlacesOf(n: nat, holds: int -> bool, places: seq<int>) {
    && (forall k :: k in places <==> 0 <= k < n && holds(k))
    && forall i, j :: 0 <= i < j < |places| ==> places[i] < places[j]
  }

  /** The places in a list with one more element in front. */
  function Moved(places: seq<int>): seq<int> {
    seq(|places|, i requires 0 <= i < |places| => places[i] + 1)
  }

  function WithFirst(first: bool, later: seq<int>): seq<int> {
    (if first then [0] else []) + Moved(later)
  }

  lemma MovedExact(later: seq<int>, k: int)
    ensures k in Moved(later) <==> k - 1 in later
  {
    if k - 1 in later {
      var i :| 0 <= i < |later| && later[i] == k - 1;
      assert Moved(later)[i] == k;
    }
  }

  lemma PlacesMove(n: nat, holds: int -> bool, later: seq<int>, all: int -> bool)
    requires PlacesOf(n, holds, later) && forall k :: 0 <= k < n ==> all(k + 1) == holds(k)
    ensures PlacesOf(n + 1, all, WithFirst(all(0), later))
  {
    var first, moved := if all(0) then [0] else [], Moved(later);
    forall k ensures k in first + moved <==> 0 <= k < n + 1 && all(k) {
      MovedExact(later, k);
      if 0 < k < n + 1 {
        assert all(k - 1 + 1) == holds(k - 1);
      }
      assert k in first <==> k == 0 && all(0);
    }
    forall i | 0 <= i < |moved| ensures moved[i] > 0 {
      assert later[i] in later;
    }
  }

  /** One item for each place, and each matches its place. */
  ghost predicate Matching<T>(at: (int, T) -> bool, places: seq<int>, items: seq<T>) {
    |items| == |places| && forall i :: 0 <= i < |places| ==> at(places[i], items[i])
  }

  lemma MatchingMoves<T(!new)>(at: (int, T) -> bool, later: seq<int>, items: seq<T>, all: (int, T) -> bool, head: seq<T>)
    requires Matching(at, later, items) && forall k, x :: at(k, x) ==> all(k + 1, x)
    requires |head| <= 1 && (head != [] ==> all(0, head[0]))
    ensures Matching(all, WithFirst(head != [], later), head + items)
  {
    var places := WithFirst(head != [], later);
    forall i | 0 <= i < |places| ensures all(places[i], (head + items)[i]) {
      if i >= |head| {
        assert at(later[i - |head|], items[i - |head|]);
      }
    }
  }
}
