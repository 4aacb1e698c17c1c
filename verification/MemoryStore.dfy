/** The keyed store of memory records. */
module MemoryStore {
  import opened Wrappers
  import opened TotalOrders
  import opened MemoryModels

  // ---------- row order ----------

  /** `ORDER BY updated_at ASC, memory_id ASC`. */
  type RowKey = (int, string)

  predicate RowLe(a: RowKey, b: RowKey) {
    a.0 < b.0 || (a.0 == b.0 && StrLe(a.1, b.1))
  }

  lemma RowLeIsTotalOrder()
    ensures TotalOrder(RowLe)
  {
    StrLeIsTotalOrder();
  }

  function KeyOf(r: Record): RowKey {
    (r.updatedAt, r.memoryId)
  }

  /** Rows are stored under their own id. */
  ghost predicate Keyed(t: Table) {
    forall id :: id in t ==> t[id].memoryId == id
  }

  /** `rows` lists exactly the records of `t` that satisfy `p`, in row order. */
  ghost predicate Lists(t: Table, p: Record -> bool, rows: seq<Record>) {
    && (forall k :: 0 <= k < |rows| ==> rows[k].memoryId in t && t[rows[k].memoryId] == rows[k] && p(rows[k]))
    && (forall id :: id in t && p(t[id]) ==> t[id] in rows)
    && (forall j, k :: 0 <= j < k < |rows| ==> rows[j].memoryId != rows[k].memoryId)
    && (forall j, k :: 0 <= j < k < |rows| ==> RowLe(KeyOf(rows[j]), KeyOf(rows[k])))
  }

  lemma ListedKeys(t: Table, p: Record -> bool, rows: seq<Record>)
    requires Keyed(t) && Lists(t, p, rows)
    ensures forall x :: x in Keys(rows) <==> x.1 in t && p(t[x.1]) && x == KeyOf(t[x.1])
    ensures Distinct(Keys(rows)) && Sorted(RowLe, Keys(rows))
  {
    forall x ensures x in Keys(rows) <==> x.1 in t && p(t[x.1]) && x == KeyOf(t[x.1]) {
      if x in Keys(rows) {
        var k :| 0 <= k < |rows| && Keys(rows)[k] == x;
        assert x == KeyOf(rows[k]);
      }
      if x.1 in t && p(t[x.1]) && x == KeyOf(t[x.1]) {
        var k :| 0 <= k < |rows| && rows[k] == t[x.1];
        assert Keys(rows)[k] == x;
      }
    }
  }

  /** A listing is determined by the table and the condition. */
  lemma ListsUnique(t: Table, p: Record -> bool, a: seq<Record>, b: seq<Record>)
    requires Keyed(t) && Lists(t, p, a) && Lists(t, p, b)
    ensures a == b
  {
    RowLeIsTotalOrder();
    ListedKeys(t, p, a);
    ListedKeys(t, p, b);
    DistinctMultiset(Keys(a), Keys(b));
    SortedUnique(RowLe, Keys(a), Keys(b));
    SameKeys(t, p, a, b);
  }

  lemma SameKeys(t: Table, p: Record -> bool, a: seq<Record>, b: seq<Record>)
    requires Lists(t, p, a) && Lists(t, p, b) && Keys(a) == Keys(b)
    ensures a == b
  {
    assert |Keys(a)| == |a| && |Keys(b)| == |b|;
    forall k | 0 <= k < |a| ensures a[k] == b[k] {
      assert Keys(a)[k] == Keys(b)[k];
    }
  }

  function Keys(rows: seq<Record>): seq<RowKey> {
    seq(|rows|, k requires 0 <= k < |rows| => KeyOf(rows[k]))
  }

  ghost function Listing(t: Table, p: Record -> bool): (rows: seq<Record>)
    requires Keyed(t)
    ensures Lists(t, p, rows)
  {
    ListingExists(t, p, t.Keys);
    var rows :| Lists(t, p, rows);
    rows
  }

  function InsertRow(r: Record, rows: seq<Record>): seq<Record> {
    if rows == [] then [r]
    else if RowLe(KeyOf(r), KeyOf(rows[0])) then [r] + rows
    else [rows[0]] + InsertRow(r, rows[1..])
  }

  lemma {:induction false} InsertRowMembers(r: Record, rows: seq<Record>)
    ensures forall x :: x in InsertRow(r, rows) <==> x == r || x in rows
  {
    if rows != [] {
      InsertRowMembers(r, rows[1..]);
    }
  }

  ghost predicate RowsSorted(rows: seq<Record>) {
    && (forall j, k :: 0 <= j < k < |rows| ==> rows[j].memoryId != rows[k].memoryId)
    && (forall j, k :: 0 <= j < k < |rows| ==> RowLe(KeyOf(rows[j]), KeyOf(rows[k])))
  }

  lemma {:induction false} InsertRowSorted(r: Record, rows: seq<Record>)
    requires RowsSorted(rows) && forall x :: x in rows ==> x.memoryId != r.memoryId
    ensures RowsSorted(InsertRow(r, rows))
  {
    RowLeIsTotalOrder();
    if rows != [] {
      if RowLe(KeyOf(r), KeyOf(rows[0])) {
        forall k | 0 <= k < |rows| ensures RowLe(KeyOf(r), KeyOf(rows[k])) && rows[k].memoryId != r.memoryId {
          assert k == 0 || RowLe(KeyOf(rows[0]), KeyOf(rows[k]));
          assert rows[k] in rows;
        }
      } else {
        InsertRowSorted(r, rows[1..]);
        InsertRowMembers(r, rows[1..]);
        var rest := InsertRow(r, rows[1..]);
        forall k | 0 <= k < |rest| ensures RowLe(KeyOf(rows[0]), KeyOf(rest[k])) && rest[k].memoryId != rows[0].memoryId {
          assert rest[k] in rest && rows[0] in rows;
        }
      }
    }
  }

  /** Rows found so far among the keys already visited. */
  ghost predicate ListsAmong(t: Table, p: Record -> bool, seen: set<string>, rows: seq<Record>) {
    && RowsSorted(rows)
    && (forall x :: x in rows <==> x.memoryId in seen && x.memoryId in t && t[x.memoryId] == x && p(x))
  }

  lemma ListsAmongAll(t: Table, p: Record -> bool, rows: seq<Record>)
    requires Keyed(t) && ListsAmong(t, p, t.Keys, rows)
    ensures Lists(t, p, rows)
  {
    assert forall k :: 0 <= k < |rows| ==> rows[k] in rows;
  }

  lemma ListsAmongNext(t: Table, p: Record -> bool, seen: set<string>, rows: seq<Record>, id: string)
    requires Keyed(t) && ListsAmong(t, p, seen, rows) && id in t && id !in seen
    ensures ListsAmong(t, p, seen + {id}, if p(t[id]) then InsertRow(t[id], rows) else rows)
  {
    InsertRowMembers(t[id], rows);
    InsertRowSorted(t[id], rows);
  }

  lemma {:induction false} ListingExists(t: Table, p: Record -> bool, left: set<string>)
    requires Keyed(t) && left <= t.Keys
    ensures exists rows :: ListsAmong(t, p, left, rows)
    ensures left == t.Keys ==> exists rows :: Lists(t, p, rows)
    decreases |left|
  {
    if left == {} {
      assert ListsAmong(t, p, left, []);
    } else {
      var id :| id in left;
      ListingExists(t, p, left - {id});
      var rows :| ListsAmong(t, p, left - {id}, rows);
      ListsAmongNext(t, p, left - {id}, rows, id);
      assert left - {id} + {id} == left;
    }
    var rows :| ListsAmong(t, p, left, rows);
    if left == t.Keys {
      ListsAmongAll(t, p, rows);
    }
  }

  // ---------- the store ----------

  /** An upsert writes the whole row and stamps it. */
  function Upserted(t: Table, r: Record, now: int): Table {
    t[r.memoryId := r.(updatedAt := now)]
  }

  datatype Filter = Filter(ownerId: string, namespace: Option<string>, memoryType: Option<MemoryType>, status: Option<Status>)

  function Matches(f: Filter): Record -> bool {
    (r: Record) =>
      && r.ownerId == f.ownerId
      && (f.namespace.None? || r.namespace == f.namespace.value)
      && (f.memoryType.None? || TypeOf(r) == f.memoryType.value)
      && (f.status.None? || r.status == f.status.value)
  }

  class Store {
    var records: Table

    constructor ()
      ensures records == map[]
    {
      records := map[];
    }

    method Upsert(record: Record, now: int) returns (updated: Record)
      modifies this
      ensures records == Upserted(old(records), record, now)
      ensures updated == record.(updatedAt := now)
    {
      updated := record.(updatedAt := now);
      records := records[record.memoryId := updated];
    }

    method Get(memoryId: string) returns (r: Option<Record>)
      ensures r == if memoryId in records then Some(records[memoryId]) else None
    {
      r := if memoryId in records then Some(records[memoryId]) else None;
    }

    method ListMemories(f: Filter) returns (rows: seq<Record>)
      requires Keyed(records)
      ensures Lists(records, Matches(f), rows)
      ensures rows == Listing(records, Matches(f))
    {
      ghost var t, p := records, Matches(f);
      rows := [];
      var left := records.Keys;
      while left != {}
        invariant left <= t.Keys
        invariant ListsAmong(t, p, t.Keys - left, rows)
        decreases |left|
      {
        var id :| id in left;
        ListsAmongNext(t, p, t.Keys - left, rows, id);
        assert t.Keys - (left - {id}) == t.Keys - left + {id};
        if Matches(f)(records[id]) {
          rows := InsertRow(records[id], rows);
        }
        left := left - {id};
      }
      assert t.Keys - {} == t.Keys;
      ListsAmongAll(t, p, rows);
      ListsUnique(t, p, rows, Listing(t, p));
    }

    /** The row keeps its time stamp. */
    method RecordAccess(memoryId: string, now: int) returns (r: Option<Record>)
      modifies this
      ensures records == Accessed(old(records), memoryId, now)
      ensures r == if memoryId in old(records) then Some(records[memoryId]) else None
    {
      if memoryId !in records {
        return None;
      }
      var record := records[memoryId];
      record := record.(lastAccessedAt := Some(now), accessCount := record.accessCount + 1);
      records := records[memoryId := record];
      return Some(record);
    }
  }

  function Accessed(t: Table, id: string, now: int): Table {
    if id in t then t[id := t[id].(lastAccessedAt := Some(now), accessCount := t[id].accessCount + 1)] else t
  }
}
