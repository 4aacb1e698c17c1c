/** Orders, sorting, prefixes and the lexicographic order of strings. */
module TotalOrders {

  ghost predicate TotalPreorder<T(!new)>(le: (T, T) -> bool) {
    && (forall a, b :: le(a, b) || le(b, a))
    && (forall a, b, c :: le(a, b) && le(b, c) ==> le(a, c))
  }

  ghost predicate TotalOrder<T(!new)>(le: (T, T) -> bool) {
    TotalPreorder(le) && forall a, b :: le(a, b) && le(b, a) ==> a == b
  }

  ghost predicate Sorted<T>(le: (T, T) -> bool, s: seq<T>) {
    forall i, j :: 0 <= i < j < |s| ==> le(s[i], s[j])
  }

  ghost predicate Distinct<T>(s: seq<T>) {
    forall i, j :: 0 <= i < j < |s| ==> s[i] != s[j]
  }

  function Insert<T>(le: (T, T) -> bool, x: T, s: seq<T>): seq<T> {
    if s == [] then [x]
    else if le(x, s[0]) then [x] + s
    else [s[0]] + Insert(le, x, s[1..])
  }

  function Sort<T>(le: (T, T) -> bool, s: seq<T>): seq<T> {
    if s == [] then [] else Insert(le, s[0], Sort(le, s[1..]))
  }

  lemma {:induction false} InsertElements<T>(le: (T, T) -> bool, x: T, s: seq<T>)
    ensures multiset(Insert(le, x, s)) == multiset(s) + multiset{x}
    ensures forall y :: y in Insert(le, x, s) <==> y == x || y in s
  {
    if s != [] {
      assert s == [s[0]] + s[1..];
      InsertElements(le, x, s[1..]);
    }
  }

  lemma {:induction false} InsertSorts<T(!new)>(le: (T, T) -> bool, x: T, s: seq<T>)
    requires TotalPreorder(le) && Sorted(le, s)
    ensures Sorted(le, Insert(le, x, s))
  {
    if s != [] {
      if le(x, s[0]) {
        forall k | 0 <= k < |s| ensures le(x, s[k]) {
          assert k == 0 || le(s[0], s[k]);
        }
      } else {
        var rest := Insert(le, x, s[1..]);
        InsertSorts(le, x, s[1..]);
        InsertElements(le, x, s[1..]);
        forall k | 0 <= k < |rest| ensures le(s[0], rest[k]) {
          assert rest[k] == x || rest[k] in s[1..];
        }
      }
    }
  }

  lemma {:induction false} SortElements<T>(le: (T, T) -> bool, s: seq<T>)
    ensures multiset(Sort(le, s)) == multiset(s)
  {
    if s != [] {
      SortElements(le, s[1..]);
      InsertElements(le, s[0], Sort(le, s[1..]));
      assert s == [s[0]] + s[1..];
    }
  }

  lemma {:induction false} SortSorts<T(!new)>(le: (T, T) -> bool, s: seq<T>)
    requires TotalPreorder(le)
    ensures Sorted(le, Sort(le, s))
    ensures multiset(Sort(le, s)) == multiset(s)
  {
    if s != [] {
      SortSorts(le, s[1..]);
      InsertSorts(le, s[0], Sort(le, s[1..]));
    }
    SortElements(le, s);
  }

  lemma SortedHead<T(!new)>(le: (T, T) -> bool, a: seq<T>, b: seq<T>)
    requires TotalOrder(le) && Sorted(le, a) && Sorted(le, b)
    requires a != [] && b != [] && a[0] in b && b[0] in a
    ensures a[0] == b[0]
  {
    var i :| 0 <= i < |b| && b[i] == a[0];
    var j :| 0 <= j < |a| && a[j] == b[0];
    assert i > 0 && j > 0 ==> le(b[0], a[0]) && le(a[0], b[0]);
  }

  /** A sorted sequence is determined by its elements. */
  lemma {:induction false} SortedUnique<T(!new)>(le: (T, T) -> bool, a: seq<T>, b: seq<T>)
    requires TotalOrder(le) && Sorted(le, a) && Sorted(le, b)
    requires multiset(a) == multiset(b)
    ensures a == b
  {
    if a == [] || b == [] {
      assert |multiset(a)| == |a| && |multiset(b)| == |b|;
    } else {
      assert a[0] in multiset(b) && b[0] in multiset(a);
      SortedHead(le, a, b);
      WithoutHead(a);
      WithoutHead(b);
      SortedUnique(le, a[1..], b[1..]);
    }
  }

  lemma WithoutHead<T>(s: seq<T>)
    requires s != []
    ensures s == [s[0]] + s[1..] && multiset(s[1..]) == multiset(s) - multiset{s[0]}
  {
    assert s == [s[0]] + s[1..];
  }

  /** Sorting the same elements gives the same sequence, whatever their order. */
  lemma SortPermutation<T(!new)>(le: (T, T) -> bool, a: seq<T>, b: seq<T>)
    requires TotalOrder(le)
    requires multiset(a) == multiset(b)
    ensures Sort(le, a) == Sort(le, b)
  {
    SortSorts(le, a);
    SortSorts(le, b);
    SortedUnique(le, Sort(le, a), Sort(le, b));
  }

  /** Python's `s[:k]`. */
  function Take<T>(s: seq<T>, k: int): seq<T> {
    if k >= |s| then s else if k >= 0 then s[..k] else if |s| + k >= 0 then s[..|s| + k] else []
  }

  /** How many of `n` elements that slice keeps. */
  function SliceLength(n: nat, k: int): nat {
    if k >= n then n else if k >= 0 then k else if n + k > 0 then n + k else 0
  }

  lemma TakeExact<T>(s: seq<T>, k: int)
    ensures SliceLength(|s|, k) <= |s| && Take(s, k) == s[..SliceLength(|s|, k)]
  {
  }

  // ---------- strings ----------

  predicate StrLe(a: string, b: string) {
    if a == "" then true
    else if b == "" then false
    else if a[0] != b[0] then a[0] < b[0]
    else StrLe(a[1..], b[1..])
  }

  lemma {:induction false} StrLeTotal(a: string, b: string)
    ensures StrLe(a, b) || StrLe(b, a)
    ensures StrLe(a, b) && StrLe(b, a) ==> a == b
  {
    if a != "" && b != "" && a[0] == b[0] {
      StrLeTotal(a[1..], b[1..]);
      assert a == [a[0]] + a[1..] && b == [b[0]] + b[1..];
    }
  }

  lemma {:induction false} StrLeTrans(a: string, b: string, c: string)
    requires StrLe(a, b) && StrLe(b, c)
    ensures StrLe(a, c)
  {
    if a != "" && a[0] == b[0] == c[0] {
      StrLeTrans(a[1..], b[1..], c[1..]);
    }
  }

  lemma StrLeIsTotalOrder()
    ensures TotalOrder(StrLe)
  {
    forall a, b ensures StrLe(a, b) || StrLe(b, a) { StrLeTotal(a, b); }
    forall a, b | StrLe(a, b) && StrLe(b, a) ensures a == b { StrLeTotal(a, b); }
    forall a, b, c | StrLe(a, b) && StrLe(b, c) ensures StrLe(a, c) { StrLeTrans(a, b, c); }
  }

  /** A prefix comes first; otherwise the first different character decides. */
  ghost predicate ComesBefore(a: string, b: string) {
    a <= b || exists k :: FirstDifference(a, b, k) && a[k] < b[k]
  }

  ghost predicate FirstDifference(a: string, b: string, k: int) {
    0 <= k < |a| && k < |b| && a[k] != b[k] && a[..k] == b[..k]
  }

  lemma DifferenceLater(a: string, b: string, k: int)
    requires a != "" && b != "" && a[0] == b[0]
    ensures FirstDifference(a[1..], b[1..], k) ==> FirstDifference(a, b, k + 1)
    ensures FirstDifference(a, b, k) ==> FirstDifference(a[1..], b[1..], k - 1)
  {
    if FirstDifference(a[1..], b[1..], k) {
      assert a[..k + 1] == [a[0]] + a[1..][..k] && b[..k + 1] == [b[0]] + b[1..][..k];
    }
    if FirstDifference(a, b, k) {
      assert a[1..][..k - 1] == a[..k][1..] && b[1..][..k - 1] == b[..k][1..];
    }
  }

  lemma {:induction false} StrLeExact(a: string, b: string)
    ensures StrLe(a, b) <==> ComesBefore(a, b)
  {
    if a != "" && b != "" {
      if a[0] != b[0] {
        assert FirstDifference(a, b, 0);
      } else {
        StrLeExact(a[1..], b[1..]);
        forall k ensures FirstDifference(a[1..], b[1..], k) ==> FirstDifference(a, b, k + 1) {
          DifferenceLater(a, b, k);
        }
        forall k ensures FirstDifference(a, b, k) ==> FirstDifference(a[1..], b[1..], k - 1) {
          DifferenceLater(a, b, k);
        }
      }
    }
  }

  /** Python's `sorted(set(s))`. */
  function SortedSet(s: seq<string>): seq<string> {
    if s == [] then []
    else var rest := SortedSet(s[1..]);
      if s[0] in rest then rest else Insert(StrLe, s[0], rest)
  }

  lemma {:induction false} SortedSetExact(s: seq<string>)
    ensures Sorted(StrLe, SortedSet(s)) && Distinct(SortedSet(s))
    ensures forall x :: x in SortedSet(s) <==> x in s
  {
    if s != [] {
      SortedSetExact(s[1..]);
      var rest := SortedSet(s[1..]);
      if s[0] !in rest {
        StrLeIsTotalOrder();
        InsertSorts(StrLe, s[0], rest);
        InsertNew(s[0], rest);
      }
    }
  }

  lemma {:induction false} InsertNew(x: string, s: seq<string>)
    requires Distinct(s) && x !in s
    ensures Distinct(Insert(StrLe, x, s))
    ensures forall y :: y in Insert(StrLe, x, s) <==> y == x || y in s
  {
    if s != [] && !StrLe(x, s[0]) {
      InsertNew(x, s[1..]);
      assert s[0] !in s[1..];
      assert s[0] !in Insert(StrLe, x, s[1..]);
    }
  }

  lemma DistinctMultiset<T>(a: seq<T>, b: seq<T>)
    requires Distinct(a) && Distinct(b)
    requires forall x :: x in a <==> x in b
    ensures multiset(a) == multiset(b)
  {
    forall x ensures multiset(a)[x] == multiset(b)[x] {
      DistinctCount(a, x);
      DistinctCount(b, x);
    }
  }

  lemma {:induction false} DistinctCount<T>(s: seq<T>, x: T)
    requires Distinct(s)
    ensures multiset(s)[x] == if x in s then 1 else 0
  {
    if s != [] {
      DistinctCount(s[1..], x);
      assert s == [s[0]] + s[1..];
    }
  }

  lemma TwoOccurrences<T>(s: seq<T>, j: nat, k: nat)
    requires j < k < |s|
    ensures s[j] == s[k] ==> multiset(s)[s[j]] >= 2
  {
    assert s == s[..j] + [s[j]] + s[j + 1..k] + [s[k]] + s[k + 1..];
  }
}
