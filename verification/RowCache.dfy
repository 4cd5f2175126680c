/** The row cache in the form it is kept in: one object whose tables are changed
    in place.  Each method does what the function of the same name of module
    `Cache` says, so a sequence of calls is a run of that module. */
module RowCache {
  import opened Prelude
  import opened Cache

  const MAX_TABLES := 64
  const INTERNAL_TABLES := {"_key_history", "_users"}

  ghost predicate StrictlyUp(s: seq<I64>) { forall j, k | 0 <= j < k < |s| :: s[j] < s[k] }

  function Elements(s: seq<I64>): set<I64> { set x | x in s }

  lemma {:induction false} AscendingUnique(s: seq<I64>)
    requires StrictlyUp(s)
    ensures s == Ascending(Elements(s))
    decreases |s|
  {
    hide Ascending;
    if s == [] {
      assert Elements(s) == {};
      assert Ascending({}) == [] by { NoneAscending(); }
    } else {
      assert s == [s[0]] + s[1..];
      assert Elements(s[1..]) == Elements(s) - {s[0]};
      assert IsLeast(s[0], Elements(s));
      AscendingStarts(Elements(s), s[0]);
      AscendingUnique(s[1..]);
    }
  }

  lemma NoneAscending()
    ensures Ascending({}) == []
  {
  }

  // Collect in any order, keeping the list sorted by id.
  method SortById(ids: set<I64>) returns (s: seq<I64>)
    ensures s == Ascending(ids)
  {
    hide Ascending;
    var left := ids;
    s := [];
    while left != {}
      invariant left <= ids
      invariant Elements(s) == ids - left
      invariant StrictlyUp(s)
      decreases left
    {
      var x :| x in left;
      var at := 0;
      while at < |s| && s[at] < x
        invariant 0 <= at <= |s|
        invariant forall k | 0 <= k < at :: s[k] < x
      {
        at := at + 1;
      }
      assert x !in Elements(s);
      InsertAt(s, x, at);
      s := s[..at] + [x] + s[at..];
      left := left - {x};
    }
    AscendingUnique(s);
    assert Elements(s) == ids;
  }

  lemma {:induction false} InsertAt(s: seq<I64>, x: I64, at: nat)
    requires StrictlyUp(s) && x !in Elements(s) && at <= |s|
    requires forall k | 0 <= k < at :: s[k] < x
    requires at < |s| ==> x <= s[at]
    ensures StrictlyUp(s[..at] + [x] + s[at..]) && Elements(s[..at] + [x] + s[at..]) == Elements(s) + {x}
  {
    assert forall k | at <= k < |s| :: s[k] in Elements(s) && x < s[k];
    ElementsInserted(s, x, at);
    hide Elements;
  }

  lemma {:induction false} ElementsInserted(s: seq<I64>, x: I64, at: nat)
    requires at <= |s|
    ensures Elements(s[..at] + [x] + s[at..]) == Elements(s) + {x}
  {
    assert s == s[..at] + s[at..];
  }

  method AddToIndexes(indexes: map<string, Index>, row: Row, id: I64) returns (changed: map<string, Index>)
    ensures changed == AddEntries(indexes, row, id)
  {
    changed := indexes;
    var left := indexes.Keys;
    while left != {}
      invariant left <= indexes.Keys == changed.Keys
      invariant forall c | c in indexes ::
        changed[c] == if c in left then indexes[c] else AddEntries(indexes, row, id)[c]
      decreases left
    {
      var c :| c in left;
      if IntOf(row, c).Some? {
        changed := changed[c := changed[c].(entries := changed[c].entries + {(IntOf(row, c).value, id)})];
      }
      left := left - {c};
    }
  }

  method DropFromIndexes(indexes: map<string, Index>, row: Row, id: I64) returns (changed: map<string, Index>)
    ensures changed == DropEntries(indexes, row, id)
  {
    changed := indexes;
    var left := indexes.Keys;
    while left != {}
      invariant left <= indexes.Keys == changed.Keys
      invariant forall c | c in indexes ::
        changed[c] == if c in left then indexes[c] else DropEntries(indexes, row, id)[c]
      decreases left
    {
      var c :| c in left;
      if IntOf(row, c).Some? {
        changed := changed[c := changed[c].(entries := changed[c].entries - {(IntOf(row, c).value, id)})];
      }
      left := left - {c};
    }
  }

  /** What eviction may do: internal tables stay, the rest go least recently used
      first, no further than below the limit. */
  ghost predicate Evicted(before: Tables, after: Tables) {
    && after.Keys <= before.Keys
    && (forall t | t in after :: after[t] == before[t])
    && (forall t | t in before && t !in after ::
          && t !in INTERNAL_TABLES
          && forall u | u in after && u !in INTERNAL_TABLES :: before[t].accessed <= before[u].accessed)
    && (|after| < 64 || after.Keys <= INTERNAL_TABLES)
    && (after != before ==> |after| + 1 >= 64)
  }

  class RowCache {
    var tables: Tables
    const enabled: bool

    constructor (enabled: bool)
      ensures this.enabled == enabled && tables == map[]
    {
      this.enabled, tables := enabled, map[];
    }

    method LeastRecent(candidates: set<string>) returns (oldest: string)
      requires candidates != {} && candidates <= tables.Keys
      ensures oldest in candidates && forall u | u in candidates :: tables[oldest].accessed <= tables[u].accessed
    {
      oldest :| oldest in candidates;
      var left := candidates - {oldest};
      while left != {}
        invariant left <= candidates && oldest in candidates
        invariant forall u | u in candidates - left :: tables[oldest].accessed <= tables[u].accessed
        decreases left
      {
        var u :| u in left;
        if tables[u].accessed < tables[oldest].accessed { oldest := u; }
        left := left - {u};
      }
    }

    method EvictIfNeeded()
      modifies this
      ensures Evicted(old(tables), tables)
    {
      while |tables| >= MAX_TABLES
        invariant tables.Keys <= old(tables).Keys
        invariant forall t | t in tables :: tables[t] == old(tables)[t]
        invariant forall t | t in old(tables) && t !in tables ::
          && t !in INTERNAL_TABLES
          && forall u | u in tables && u !in INTERNAL_TABLES :: old(tables)[t].accessed <= old(tables)[u].accessed
        invariant tables != old(tables) ==> |tables| + 1 >= MAX_TABLES
        decreases |tables|
      {
        var candidates := tables.Keys - INTERNAL_TABLES;
        if candidates == {} { break; }
        var oldest := LeastRecent(candidates);
        ghost var was := tables;
        tables := tables - {oldest};
        assert |tables.Keys| == |was.Keys| - 1 by { assert was.Keys == tables.Keys + {oldest}; }
      }
    }

    method TryQuery(t: string, clauses: seq<(string, I64)>, ids: seq<I64>, now: nat) returns (hit: Option<seq<Row>>)
      modifies this
      ensures hit == if enabled && t in old(tables) then Query(old(tables)[t], clauses, ids) else None
      ensures tables ==
        if enabled && t in old(tables) then old(tables)[t := old(tables)[t].(accessed := now)] else old(tables)
    {
      if !enabled || t !in tables { return None; }
      tables := tables[t := tables[t].(accessed := now)];
      var tc := tables[t];
      if tc.complete {
        var order := SortById(tc.rows.Keys);
        return Some(RowsAt(tc.rows, order));
      }
      if BucketServes(tc, clauses) {
        var bucket := Resident(tc, clauses[0].0, clauses[0].1);
        var order := SortById(bucket);
        return Some(RowsAt(tc.rows, order));
      }
      if ids != [] && clauses == [] {
        var rows := [];
        for k := 0 to |ids|
          invariant forall j | 0 <= j < k :: ids[j] in tc.rows
          invariant rows == seq(k, j requires 0 <= j < k => tc.rows[ids[j]])
        {
          if ids[k] !in tc.rows { return None; }
          rows := rows + [tc.rows[ids[k]]];
        }
        assert rows == RowsAt(tc.rows, ids);
        return Some(rows);
      }
      return None;
    }

    method PutRow(t: string, row: Row)
      requires t in tables
      modifies this
      ensures tables == old(tables)[t := Put(old(tables)[t], row)]
    {
      if RowId(row).Some? {
        var tc, id := tables[t], RowId(row).value;
        var indexes := AddToIndexes(tc.indexes, row, id);
        tables := tables[t := tc.(indexes := indexes, rows := tc.rows[id := row])];
      }
    }

    method PutRows(t: string, rows: seq<Row>)
      requires t in tables
      modifies this
      ensures tables == old(tables)[t := PutAll(old(tables)[t], rows)]
    {
      assert rows[..|rows|] == rows;
      for k := 0 to |rows|
        invariant tables == old(tables)[t := PutAll(old(tables)[t], rows[..k])]
      {
        assert rows[..k + 1][..k] == rows[..k];
        PutRow(t, rows[k]);
      }
    }

    method InsertRow(t: string, row: Row)
      modifies this
      ensures tables == if t in old(tables) then old(tables)[t := Insert(old(tables)[t], row)] else old(tables)
    {
      if t in tables && RowId(row).Some? {
        var tc, id := tables[t], RowId(row).value;
        var indexes := tc.indexes;
        if id in tc.rows { indexes := DropFromIndexes(indexes, tc.rows[id], id); }
        indexes := AddToIndexes(indexes, row, id);
        tables := tables[t := tc.(indexes := indexes, rows := tc.rows[id := row])];
      }
    }

    method UpdateRow(t: string, id: I64, updates: Row) returns (found: bool)
      modifies this
      ensures found == (t in old(tables) && id in old(tables)[t].rows)
      ensures tables == if found then old(tables)[t := Update(old(tables)[t], id, updates)] else old(tables)
    {
      if t !in tables || id !in tables[t].rows { return false; }
      var tc := tables[t];
      var row, indexes, left := tc.rows[id], tc.indexes, updates.Keys;
      while left != {}
        invariant left <= updates.Keys && indexes.Keys == tc.indexes.Keys
        invariant row == tc.rows[id] + (updates - left)
        invariant forall c | c in indexes ::
          indexes[c] == if c in left then tc.indexes[c] else Update(tc, id, updates).indexes[c]
        decreases left
      {
        var c :| c in left;
        if c in indexes {
          indexes := indexes[c := MoveEntry(indexes[c], IntOf(row, c), AsInt(updates[c]), id)];
        }
        row := row[c := updates[c]];
        left := left - {c};
      }
      assert updates - {} == updates && indexes == Update(tc, id, updates).indexes;
      tables := tables[t := tc.(rows := tc.rows[id := row], indexes := indexes)];
      return true;
    }

    method RemoveRow(t: string, id: I64) returns (found: bool)
      modifies this
      ensures found == (t in old(tables) && id in old(tables)[t].rows)
      ensures tables == if t in old(tables) then old(tables)[t := Remove(old(tables)[t], id)] else old(tables)
    {
      found := t in tables && id in tables[t].rows;
      if found {
        var tc := tables[t];
        var indexes := DropFromIndexes(tc.indexes, tc.rows[id], id);
        tables := tables[t := tc.(rows := tc.rows - {id}, indexes := indexes)];
      }
    }

    method InvalidateDestinationBuckets(t: string, updates: Row)
      modifies this
      ensures tables ==
        if t in old(tables) then old(tables)[t := LeaveBuckets(old(tables)[t], updates)] else old(tables)
    {
      if t !in tables { return; }
      var tc := tables[t];
      var indexes, left := tc.indexes, updates.Keys;
      while left != {}
        invariant left <= updates.Keys && indexes.Keys == tc.indexes.Keys
        invariant forall c | c in indexes ::
          indexes[c] == if c in left then tc.indexes[c] else LeaveBuckets(tc, updates).indexes[c]
        decreases left
      {
        var c :| c in left;
        if c in indexes && AsInt(updates[c]).Some? {
          indexes := indexes[c := indexes[c].(complete := indexes[c].complete - {AsInt(updates[c]).value})];
        }
        left := left - {c};
      }
      assert indexes == LeaveBuckets(tc, updates).indexes;
      tables := tables[t := tc.(indexes := indexes)];
    }

    method InitTableCache(t: string, indexed: set<string>, now: nat)
      modifies this
      ensures tables == old(tables)[t := OrNew(old(tables), t, indexed, now)]
    {
      if t !in tables { tables := tables[t := NewTable(indexed, now)]; }
    }

    // The table with an index for every indexed column.
    method Prepare(t: string, indexed: set<string>, now: nat)
      modifies this
      ensures tables == old(tables)[t := WithIndexes(OrNew(old(tables), t, indexed, now), indexed)]
    {
      InitTableCache(t, indexed, now);
      var tc, left := tables[t], indexed;
      var indexes := tc.indexes;
      while left != {}
        invariant left <= indexed && indexes.Keys == tc.indexes.Keys + (indexed - left)
        invariant forall c | c in indexes :: indexes[c] == if c in tc.indexes then tc.indexes[c] else EmptyIndex()
        decreases left
      {
        var c :| c in left;
        if c !in indexes { indexes := indexes[c := EmptyIndex()]; }
        left := left - {c};
      }
      assert indexes == WithIndexes(tc, indexed).indexes;
      tables := tables[t := tc.(indexes := indexes)];
    }

    method PopulateFullTable(t: string, rows: seq<Row>, indexed: set<string>, now: nat) returns (ghost kept: Tables)
      modifies this
      ensures Evicted(old(tables), kept) || (kept == old(tables) && !enabled)
      ensures tables == if enabled then PopulateFull(kept, t, rows, indexed, now) else kept
    {
      hide Evicted, PutAll, Cleared, WithIndexes, OrNew;
      if !enabled { return tables; }
      EvictIfNeeded();
      kept := tables;
      Prepare(t, indexed, now);
      tables := tables[t := Cleared(tables[t])];
      PutRows(t, rows);
      tables := tables[t := tables[t].(complete := true, accessed := now)];
    }

    method DropStaleRows(t: string, stale: set<I64>)
      requires t in tables
      modifies this
      ensures tables == old(tables)[t := DropStale(old(tables)[t], stale)]
    {
      hide DropStale, DropStaleRow;
      var left := stale;
      ghost var start := tables[t];
      DropNothing(start);
      assert stale - left == {};
      while left != {}
        invariant left <= stale
        invariant tables == old(tables)[t := DropStale(start, stale - left)]
        decreases left
      {
        var id :| id in left;
        ghost var done := stale - left;
        DropOneMore(start, done, id);
        tables := tables[t := DropStaleRow(tables[t], id)];
        left := left - {id};
        assert stale - left == done + {id};
      }
      assert stale - {} == stale;
    }

    method PopulateBucket(t: string, column: string, value: I64, rows: seq<Row>, indexed: set<string>, now: nat)
    returns (ghost kept: Tables)
      modifies this
      ensures Evicted(old(tables), kept) || (kept == old(tables) && !enabled)
      ensures tables == if enabled then PopulateForValue(kept, t, column, value, rows, indexed, now) else kept
    {
      hide Evicted, PutAll, WithIndexes, OrNew, DropStale, Bucket, Ids, MarkComplete;
      if !enabled { return tables; }
      EvictIfNeeded();
      kept := tables;
      Prepare(t, indexed, now);
      DropStaleRows(t, Bucket(tables[t], column, value) - Ids(rows));
      PutRows(t, rows);
      tables := tables[t := MarkComplete(tables[t], column, {value}).(accessed := now)];
    }

    method PopulateSome(t: string, rows: seq<Row>, indexed: set<string>, pk: Option<string>, now: nat)
      modifies this
      ensures tables == if enabled then PopulatePartial(old(tables), t, rows, indexed, pk, now) else old(tables)
    {
      if !enabled { return; }
      InitTableCache(t, indexed, now);
      ghost var start := tables[t];
      for k := 0 to |rows|
        invariant tables == old(tables)[t := InsertAll(start, rows[..k])]
      {
        assert rows[..k + 1][..k] == rows[..k];
        InsertRow(t, rows[k]);
      }
      assert rows[..|rows|] == rows;
      if pk.Some? && pk.value != ID {
        tables := tables[t := MarkComplete(tables[t], pk.value, ValuesOf(rows, pk.value))];
      }
    }

    method LandRow(t: string, cols: set<string>, row: Row)
      modifies this
      ensures tables == if t in old(tables) then old(tables)[t := Land(old(tables)[t], cols, row)] else old(tables)
    {
      if RowId(row).None? { return; }
      if cols != {} && cols <= row.Keys {
        InsertRow(t, row);
      } else {
        var found := UpdateRow(t, RowId(row).value, row - {ID});
        if !found { InvalidateDestinationBuckets(t, row - {ID}); }
      }
    }

    // One proven change of one table: deletes first, then the remaining rows.
    method LandChange(t: string, cols: set<string>, deletes: set<I64>, puts: seq<Row>)
      modifies this
      ensures tables == if t in old(tables)
        then old(tables)[t := LandAll(RemoveAll(old(tables)[t], deletes), cols, Retained(puts, deletes))]
        else old(tables)
    {
      if t !in tables { return; }
      var left := deletes;
      ghost var start := tables[t];
      hide RemoveAll, Remove;
      RemoveNone(start);
      assert deletes - left == {};
      while left != {}
        invariant left <= deletes
        invariant tables == old(tables)[t := RemoveAll(start, deletes - left)]
        decreases left
      {
        var id :| id in left;
        ghost var done := deletes - left;
        RemoveOneMore(start, done, id);
        var found := RemoveRow(t, id);
        left := left - {id};
        assert deletes - left == done + {id};
      }
      assert deletes - {} == deletes;
      var rows := Retained(puts, deletes);
      for k := 0 to |rows|
        invariant tables == old(tables)[t := LandAll(RemoveAll(start, deletes), cols, rows[..k])]
      {
        assert rows[..k + 1][..k] == rows[..k];
        LandRow(t, cols, rows[k]);
      }
      assert rows[..|rows|] == rows;
    }
  }

  function DropStaleRow(tc: TableCache, id: I64): TableCache {
    if id !in tc.rows then tc
    else
      tc.(rows := tc.rows - {id},
          indexes := map c | c in tc.indexes ::
            if IntOf(tc.rows[id], c).Some? then
              var v := IntOf(tc.rows[id], c).value;
              Index(tc.indexes[c].entries - {(v, id)}, tc.indexes[c].complete - {v})
            else tc.indexes[c])
  }

  lemma {:induction false} StaleValuesOneMore(tc: TableCache, done: set<I64>, id: I64, c: string)
    ensures StaleValues(tc, done + {id}, c)
         == StaleValues(tc, done, c) +
            if id in tc.rows && IntOf(tc.rows[id], c).Some? then {IntOf(tc.rows[id], c).value} else {}
  {
  }

  lemma {:induction false} DropOneMoreIndex(tc: TableCache, done: set<I64>, id: I64, c: string)
    requires id !in done && c in tc.indexes
    ensures DropStaleRow(DropStale(tc, done), id).indexes[c] == DropStale(tc, done + {id}).indexes[c]
  {
    hide StaleValues;
    StaleValuesOneMore(tc, done, id, c);
    assert DropStaleRow(DropStale(tc, done), id).indexes[c].entries == DropStale(tc, done + {id}).indexes[c].entries;
  }

  lemma {:induction false} DropOneMore(tc: TableCache, done: set<I64>, id: I64)
    requires id !in done
    ensures DropStaleRow(DropStale(tc, done), id) == DropStale(tc, done + {id})
  {
    var a, b := DropStaleRow(DropStale(tc, done), id), DropStale(tc, done + {id});
    forall c | c in tc.indexes ensures a.indexes[c] == b.indexes[c] { DropOneMoreIndex(tc, done, id, c); }
    assert a.rows == b.rows && a.indexes == b.indexes;
  }

  lemma {:induction false} RemoveNone(tc: TableCache)
    ensures RemoveAll(tc, {}) == tc
  {
    forall c | c in tc.indexes ensures RemoveAll(tc, {}).indexes[c] == tc.indexes[c] {
      assert RemoveAll(tc, {}).indexes[c].entries == tc.indexes[c].entries;
    }
    assert RemoveAll(tc, {}).indexes == tc.indexes;
    assert tc.rows - {} == tc.rows;
  }

  lemma {:induction false} RemoveOneMore(tc: TableCache, done: set<I64>, id: I64)
    requires id !in done
    ensures Remove(RemoveAll(tc, done), id) == RemoveAll(tc, done + {id})
  {
    var a, b := Remove(RemoveAll(tc, done), id), RemoveAll(tc, done + {id});
    forall c | c in tc.indexes ensures a.indexes[c] == b.indexes[c] {
      assert a.indexes[c].entries == b.indexes[c].entries;
    }
    assert a.rows == b.rows && a.indexes == b.indexes;
  }
}
