/** The client's row cache against the server tables it stands in for.

    A table cache may hold any part of the server's rows.  It claims more than
    that in two ways: `complete` says every row is here, and a value in an
    index's `complete` set says every row with that value is here and indexed.
 */
module Cache {
  import opened Prelude

  type I64 = x: int | -0x8000_0000_0000_0000 <= x < 0x8000_0000_0000_0000

  datatype Value = Int(n: I64) | Other(json: string)
  type Row = map<string, Value>

  datatype Index = Index(entries: set<(I64, I64)>, complete: set<I64>)
  datatype TableCache = TableCache(rows: map<I64, Row>, indexes: map<string, Index>, complete: bool, accessed: nat)

  const ID := "id"

  function AsInt(v: Value): Option<I64> { if v.Int? then Some(v.n) else None }
  function IntOf(row: Row, col: string): Option<I64> { if col in row then AsInt(row[col]) else None }
  function RowId(row: Row): Option<I64> { IntOf(row, ID) }

  // ---------------------------------------------------------------------
  // Row and index updates
  // ---------------------------------------------------------------------

  function EmptyIndex(): Index { Index({}, {}) }

  function NewTable(indexed: set<string>, now: nat): TableCache {
    TableCache(map[], map c | c in indexed :: EmptyIndex(), false, now)
  }

  function WithIndexes(tc: TableCache, indexed: set<string>): TableCache {
    tc.(indexes := map c | c in tc.indexes.Keys + indexed :: if c in tc.indexes then tc.indexes[c] else EmptyIndex())
  }

  function AddEntries(indexes: map<string, Index>, row: Row, id: I64): map<string, Index> {
    map c | c in indexes ::
      if IntOf(row, c).Some? then indexes[c].(entries := indexes[c].entries + {(IntOf(row, c).value, id)})
        else indexes[c]
  }

  function DropEntries(indexes: map<string, Index>, row: Row, id: I64): map<string, Index> {
    map c | c in indexes ::
      if IntOf(row, c).Some? then indexes[c].(entries := indexes[c].entries - {(IntOf(row, c).value, id)})
        else indexes[c]
  }

  function Put(tc: TableCache, row: Row): TableCache {
    if RowId(row).None? then tc
    else tc.(rows := tc.rows[RowId(row).value := row], indexes := AddEntries(tc.indexes, row, RowId(row).value))
  }

  function PutAll(tc: TableCache, rows: seq<Row>): TableCache {
    if rows == [] then tc else Put(PutAll(tc, rows[..|rows| - 1]), rows[|rows| - 1])
  }

  function Insert(tc: TableCache, row: Row): TableCache {
    if RowId(row).Some? && RowId(row).value in tc.rows
    then Put(tc.(indexes := DropEntries(tc.indexes, tc.rows[RowId(row).value], RowId(row).value)), row)
    else Put(tc, row)
  }

  function InsertAll(tc: TableCache, rows: seq<Row>): TableCache {
    if rows == [] then tc else Insert(InsertAll(tc, rows[..|rows| - 1]), rows[|rows| - 1])
  }

  // A changed value leaves its old bucket and enters the new one; neither
  // bucket is claimed complete any more.
  function MoveEntry(ix: Index, before: Option<I64>, after: Option<I64>, id: I64): Index {
    if before == after then ix
    else
      var gone := if before.Some? then {before.value} else {};
      var here := if after.Some? then {after.value} else {};
      Index(ix.entries - (set v | v in gone :: (v, id)) + (set v | v in here :: (v, id)),
            ix.complete - gone - here)
  }

  function Update(tc: TableCache, id: I64, updates: Row): TableCache
    requires id in tc.rows
  {
    tc.(rows := tc.rows[id := tc.rows[id] + updates],
        indexes := map c | c in tc.indexes ::
          if c in updates then MoveEntry(tc.indexes[c], IntOf(tc.rows[id], c), AsInt(updates[c]), id)
            else tc.indexes[c])
  }

  function Remove(tc: TableCache, id: I64): TableCache {
    if id in tc.rows then tc.(rows := tc.rows - {id}, indexes := DropEntries(tc.indexes, tc.rows[id], id)) else tc
  }

  function RemoveAll(tc: TableCache, ids: set<I64>): TableCache {
    tc.(rows := tc.rows - ids,
        indexes := map c | c in tc.indexes ::
          tc.indexes[c].(entries := set e | e in tc.indexes[c].entries
            && !(e.1 in ids && e.1 in tc.rows && IntOf(tc.rows[e.1], c) == Some(e.0))))
  }

  function LeaveBuckets(tc: TableCache, updates: Row): TableCache {
    tc.(indexes := map c | c in tc.indexes ::
          if c in updates && AsInt(updates[c]).Some?
          then tc.indexes[c].(complete := tc.indexes[c].complete - {AsInt(updates[c]).value})
          else tc.indexes[c])
  }

  // ---------------------------------------------------------------------
  // Agreement with the server's table
  // ---------------------------------------------------------------------

  type Table = map<I64, Row>

  /** Every server row has its id and exactly the schema's columns. */
  ghost predicate WellTyped(srv: Table, cols: set<string>) {
    && ID !in cols && IdsMatch(srv)
    && forall id | id in srv :: srv[id].Keys == cols + {ID}
  }

  ghost predicate IdsMatch(srv: Table) { forall id | id in srv :: RowId(srv[id]) == Some(id) }

  ghost predicate RowsAgree(srv: Table, rows: map<I64, Row>) {
    forall id | id in rows :: id in srv && rows[id] == srv[id]
  }

  // An entry points at a resident row with that value; a complete value has
  // every server row with it resident and listed.
  ghost predicate IndexAgrees(srv: Table, rows: map<I64, Row>, c: string, ix: Index) {
    && (forall e | e in ix.entries :: e.1 in rows && IntOf(rows[e.1], c) == Some(e.0))
    && (forall id | id in srv && IntOf(srv[id], c).Some? && IntOf(srv[id], c).value in ix.complete ::
          id in rows && (IntOf(srv[id], c).value, id) in ix.entries)
  }

  ghost predicate Agrees(srv: Table, tc: TableCache) {
    && RowsAgree(srv, tc.rows)
    && (tc.complete ==> tc.rows.Keys == srv.Keys)
    && forall c | c in tc.indexes :: IndexAgrees(srv, tc.rows, c, tc.indexes[c])
  }

  lemma {:induction false} PutAgrees(srv: Table, tc: TableCache, row: Row)
    requires Agrees(srv, tc) && RowId(row).Some? && RowId(row).value in srv && srv[RowId(row).value] == row
    ensures Agrees(srv, Put(tc, row))
  {
  }

  /** The server's table after a write of `row`: new columns over the old ones. */
  function ServerPut(srv: Table, row: Row): Table {
    match RowId(row)
    case None => srv
    case Some(id) => srv[id := if id in srv then srv[id] + row else row]
  }

  lemma {:induction false} InsertIndexAgrees(srv: Table, tc: TableCache, row: Row, id: I64, c: string)
    requires RowsAgree(srv, tc.rows) && c in tc.indexes && IndexAgrees(srv, tc.rows, c, tc.indexes[c])
    requires RowId(row) == Some(id)
    ensures c in Insert(tc, row).indexes &&
      IndexAgrees(srv[id := row], tc.rows[id := row], c, Insert(tc, row).indexes[c])
  {
  }

  lemma {:induction false} FullPut(srv: Table, cols: set<string>, row: Row)
    requires WellTyped(srv, cols) && RowId(row).Some? && row.Keys == cols + {ID}
    ensures ServerPut(srv, row) == srv[RowId(row).value := row]
  {
    var id := RowId(row).value;
    if id in srv { assert srv[id] + row == row; }
  }

  /** A row with all columns replaces what was there; index entries follow and
      no completeness claim is lost. */
  lemma {:induction false} InsertAgrees(srv: Table, cols: set<string>, tc: TableCache, row: Row)
    requires Agrees(srv, tc) && WellTyped(srv, cols) && RowId(row).Some? && row.Keys == cols + {ID}
    ensures Agrees(ServerPut(srv, row), Insert(tc, row))
  {
    hide IndexAgrees, ServerPut, WellTyped;
    var id := RowId(row).value;
    FullPut(srv, cols, row);
    forall c | c in Insert(tc, row).indexes
      ensures IndexAgrees(srv[id := row], tc.rows[id := row], c, Insert(tc, row).indexes[c])
    {
      InsertIndexAgrees(srv, tc, row, id, c);
    }
  }

  lemma {:induction false} MoveEntryAgrees(srv: Table, rows: Table, c: string, ix: Index, id: I64, updates: Row)
    requires RowsAgree(srv, rows) && IndexAgrees(srv, rows, c, ix) && id in rows
    ensures IndexAgrees(srv[id := srv[id] + updates], rows[id := rows[id] + updates], c,
                        if c in updates then MoveEntry(ix, IntOf(rows[id], c), AsInt(updates[c]), id) else ix)
  {
  }

  lemma {:induction false} UpdateAgrees(srv: Table, cols: set<string>, tc: TableCache, id: I64, updates: Row)
    requires Agrees(srv, tc) && WellTyped(srv, cols) && id in tc.rows && updates.Keys <= cols
    ensures Agrees(srv[id := srv[id] + updates], Update(tc, id, updates))
  {
    hide MoveEntry, IndexAgrees, WellTyped;
    var srv', tc' := srv[id := srv[id] + updates], Update(tc, id, updates);
    forall c | c in tc'.indexes ensures IndexAgrees(srv', tc'.rows, c, tc'.indexes[c]) {
      MoveEntryAgrees(srv, tc.rows, c, tc.indexes[c], id, updates);
    }
  }

  /** An update of a row that is not here may move it into a complete bucket. */
  lemma {:induction false} LeaveBucketsAgrees(srv: Table, cols: set<string>, tc: TableCache, id: I64, updates: Row)
    requires Agrees(srv, tc) && WellTyped(srv, cols) && id in srv && id !in tc.rows && updates.Keys <= cols
    ensures Agrees(srv[id := srv[id] + updates], LeaveBuckets(tc, updates))
  {
    var srv', tc' := srv[id := srv[id] + updates], LeaveBuckets(tc, updates);
    forall c | c in tc'.indexes ensures IndexAgrees(srv', tc'.rows, c, tc'.indexes[c]) {
      assert IndexAgrees(srv, tc.rows, c, tc.indexes[c]);
    }
  }

  lemma {:induction false} RemoveAllAgrees(srv: Table, tc: TableCache, ids: set<I64>)
    requires Agrees(srv, tc)
    ensures Agrees(srv - ids, RemoveAll(tc, ids))
  {
    var tc' := RemoveAll(tc, ids);
    forall c | c in tc'.indexes ensures IndexAgrees(srv - ids, tc'.rows, c, tc'.indexes[c]) {
      assert IndexAgrees(srv, tc.rows, c, tc.indexes[c]);
    }
  }

  // ---------------------------------------------------------------------
  // Population after a server fetch
  // ---------------------------------------------------------------------

  type Tables = map<string, TableCache>

  function OrNew(tables: Tables, t: string, indexed: set<string>, now: nat): TableCache {
    if t in tables then tables[t] else NewTable(indexed, now)
  }

  function Cleared(tc: TableCache): TableCache {
    tc.(rows := map[], indexes := map c | c in tc.indexes :: EmptyIndex())
  }

  function PopulateFull(tables: Tables, t: string, rows: seq<Row>, indexed: set<string>, now: nat): Tables {
    var tc := PutAll(Cleared(WithIndexes(OrNew(tables, t, indexed, now), indexed)), rows);
    tables[t := tc.(complete := true, accessed := now)]
  }

  function Ids(rows: seq<Row>): set<I64> {
    set k | 0 <= k < |rows| && RowId(rows[k]).Some? :: RowId(rows[k]).value
  }

  function Bucket(tc: TableCache, column: string, value: I64): set<I64> {
    if column in tc.indexes then set e | e in tc.indexes[column].entries && e.0 == value :: e.1 else {}
  }

  // Rows of the bucket that the server no longer reports, with every claim
  // about a value they had.
  function DropStale(tc: TableCache, stale: set<I64>): TableCache {
    RemoveAll(tc, stale).(indexes := map c | c in tc.indexes ::
      RemoveAll(tc, stale).indexes[c].(complete := tc.indexes[c].complete - StaleValues(tc, stale, c)))
  }

  function StaleValues(tc: TableCache, stale: set<I64>, c: string): set<I64> {
    set id | id in stale && id in tc.rows && IntOf(tc.rows[id], c).Some? :: IntOf(tc.rows[id], c).value
  }

  function MarkComplete(tc: TableCache, column: string, values: set<I64>): TableCache {
    if column in tc.indexes
    then tc.(indexes := tc.indexes[column := tc.indexes[column].(complete := tc.indexes[column].complete + values)])
    else tc
  }

  function PopulateForValue(tables: Tables, t: string, column: string, value: I64, rows: seq<Row>,
                            indexed: set<string>, now: nat): Tables {
    var tc := WithIndexes(OrNew(tables, t, indexed, now), indexed);
    var kept := DropStale(tc, Bucket(tc, column, value) - Ids(rows));
    tables[t := MarkComplete(PutAll(kept, rows), column, {value}).(accessed := now)]
  }

  function ValuesOf(rows: seq<Row>, column: string): set<I64> {
    set k | 0 <= k < |rows| && IntOf(rows[k], column).Some? :: IntOf(rows[k], column).value
  }

  function PopulatePartial(tables: Tables, t: string, rows: seq<Row>, indexed: set<string>, pk: Option<string>,
                           now: nat): Tables {
    var tc := InsertAll(OrNew(tables, t, indexed, now), rows);
    tables[t := if pk.Some? && pk.value != ID then MarkComplete(tc, pk.value, ValuesOf(rows, pk.value)) else tc]
  }

  /** `rows` are rows of the server's table. */
  ghost predicate Fetched(srv: Table, rows: seq<Row>) {
    forall k | 0 <= k < |rows| ::
      RowId(rows[k]).Some? && RowId(rows[k]).value in srv && srv[RowId(rows[k]).value] == rows[k]
  }

  /** ... and among them all rows with `column` equal to `value`. */
  ghost predicate WholeBucket(srv: Table, rows: seq<Row>, column: string, value: I64) {
    forall id | id in srv && IntOf(srv[id], column) == Some(value) :: srv[id] in rows
  }

  ghost predicate Holds(tc: TableCache, row: Row) {
    && RowId(row).Some? && RowId(row).value in tc.rows
    && forall c | c in tc.indexes && IntOf(row, c).Some? ::
         (IntOf(row, c).value, RowId(row).value) in tc.indexes[c].entries
  }

  lemma {:induction false} PutAllAgrees(srv: Table, tc: TableCache, rows: seq<Row>)
    requires Agrees(srv, tc) && Fetched(srv, rows)
    ensures var tc' := PutAll(tc, rows);
      && Agrees(srv, tc') && tc'.complete == tc.complete && tc'.indexes.Keys == tc.indexes.Keys
      && forall k | 0 <= k < |rows| :: Holds(tc', rows[k])
  {
    hide Agrees;
    if rows != [] {
      PutAllAgrees(srv, tc, rows[..|rows| - 1]);
      PutAgrees(srv, PutAll(tc, rows[..|rows| - 1]), rows[|rows| - 1]);
      assert forall k | 0 <= k < |rows| - 1 :: rows[..|rows| - 1][k] == rows[k];
    }
  }

  lemma {:induction false} ReinsertIndexAgrees(srv: Table, tc: TableCache, row: Row, id: I64, c: string)
    requires RowsAgree(srv, tc.rows) && c in tc.indexes && IndexAgrees(srv, tc.rows, c, tc.indexes[c])
    requires RowId(row) == Some(id) && id in srv && srv[id] == row
    ensures c in Insert(tc, row).indexes && IndexAgrees(srv, tc.rows[id := row], c, Insert(tc, row).indexes[c])
  {
  }

  lemma {:induction false} ReinsertHolds(srv: Table, tc: TableCache, row: Row, other: Row)
    requires RowsAgree(srv, tc.rows) && RowId(row).Some? && RowId(row).value in srv && srv[RowId(row).value] == row
    requires Holds(tc, other) && Fetched(srv, [other])
    ensures Holds(Insert(tc, row), other)
  {
    assert RowId([other][0]).Some? && srv[RowId([other][0]).value] == other;
  }

  lemma {:induction false} ReinsertAgrees(srv: Table, tc: TableCache, row: Row)
    requires Agrees(srv, tc) && RowId(row).Some? && RowId(row).value in srv && srv[RowId(row).value] == row
    ensures Agrees(srv, Insert(tc, row))
    ensures forall other | Holds(tc, other) && Fetched(srv, [other]) :: Holds(Insert(tc, row), other)
  {
    hide IndexAgrees, Holds, Fetched;
    var tc' := Insert(tc, row);
    forall c | c in tc'.indexes ensures IndexAgrees(srv, tc'.rows, c, tc'.indexes[c]) {
      ReinsertIndexAgrees(srv, tc, row, RowId(row).value, c);
    }
    forall other | Holds(tc, other) && Fetched(srv, [other]) ensures Holds(tc', other) {
      ReinsertHolds(srv, tc, row, other);
    }
  }

  lemma {:induction false} InsertAllAgrees(srv: Table, tc: TableCache, rows: seq<Row>)
    requires Agrees(srv, tc) && Fetched(srv, rows)
    ensures var tc' := InsertAll(tc, rows);
      && Agrees(srv, tc') && tc'.complete == tc.complete && tc'.indexes.Keys == tc.indexes.Keys
      && forall k | 0 <= k < |rows| :: Holds(tc', rows[k])
  {
    hide Agrees;
    if rows != [] {
      var before := rows[..|rows| - 1];
      InsertAllAgrees(srv, tc, before);
      ReinsertAgrees(srv, InsertAll(tc, before), rows[|rows| - 1]);
      forall k | 0 <= k < |rows| ensures Holds(InsertAll(tc, rows), rows[k]) {
        if k < |rows| - 1 { assert Holds(InsertAll(tc, before), before[k]) && Fetched(srv, [rows[k]]); }
      }
    }
  }

  lemma {:induction false} MarkCompleteAgrees(srv: Table, tc: TableCache, rows: seq<Row>, column: string,
                                              values: set<I64>)
    requires IdsMatch(srv) && Agrees(srv, tc) && Fetched(srv, rows) && forall k | 0 <= k < |rows| :: Holds(tc, rows[k])
    requires forall v | v in values :: WholeBucket(srv, rows, column, v)
    ensures Agrees(srv, MarkComplete(tc, column, values))
  {
    if column in tc.indexes {
      var tc' := MarkComplete(tc, column, values);
      var ix := tc'.indexes[column];
      assert IndexAgrees(srv, tc.rows, column, tc.indexes[column]);
      forall id | id in srv && IntOf(srv[id], column).Some? && IntOf(srv[id], column).value in ix.complete
        ensures id in tc'.rows && (IntOf(srv[id], column).value, id) in ix.entries
      {
        var v := IntOf(srv[id], column).value;
        if v in values {
          assert WholeBucket(srv, rows, column, v);
          var k :| 0 <= k < |rows| && rows[k] == srv[id];
          assert Holds(tc, rows[k]);
        }
      }
    }
  }

  lemma {:induction false} OrNewAgrees(srv: Table, tables: Tables, t: string, indexed: set<string>, now: nat)
    requires t in tables ==> Agrees(srv, tables[t])
    ensures Agrees(srv, OrNew(tables, t, indexed, now))
    ensures Agrees(srv, WithIndexes(OrNew(tables, t, indexed, now), indexed))
  {
  }

  lemma {:induction false} PopulateFullAgrees(srv: Table, tables: Tables, t: string, rows: seq<Row>,
                                              indexed: set<string>, now: nat)
    requires IdsMatch(srv) && Fetched(srv, rows) && forall id | id in srv :: srv[id] in rows
    ensures Agrees(srv, PopulateFull(tables, t, rows, indexed, now)[t])
  {
    var tc := Cleared(WithIndexes(OrNew(tables, t, indexed, now), indexed)).(complete := false);
    assert Agrees(srv, tc);
    PutAllAgrees(srv, tc, rows);
    PutAllRows(tc, Cleared(WithIndexes(OrNew(tables, t, indexed, now), indexed)), rows);
    hide PutAll;
    forall id | id in srv ensures id in PutAll(tc, rows).rows {
      var k :| 0 <= k < |rows| && rows[k] == srv[id];
      assert Holds(PutAll(tc, rows), rows[k]);
    }
    SameKeys(srv, PutAll(tc, rows).rows);
    var full := PopulateFull(tables, t, rows, indexed, now)[t];
    assert full.rows == PutAll(tc, rows).rows && full.indexes == PutAll(tc, rows).indexes;
  }

  lemma SameKeys(srv: Table, rows: Table)
    requires RowsAgree(srv, rows) && forall id | id in srv :: id in rows
    ensures rows.Keys == srv.Keys
  {
  }

  lemma {:induction false} PutAllRows(a: TableCache, b: TableCache, rows: seq<Row>)
    requires a.rows == b.rows && a.indexes == b.indexes
    ensures PutAll(a, rows).rows == PutAll(b, rows).rows && PutAll(a, rows).indexes == PutAll(b, rows).indexes
  {
    if rows != [] { PutAllRows(a, b, rows[..|rows| - 1]); }
  }

  /** Fetching a whole bucket of a cache that agrees finds nothing stale. */
  lemma {:induction false} NothingStale(srv: Table, tc: TableCache, column: string, value: I64, rows: seq<Row>)
    requires IdsMatch(srv) && Agrees(srv, tc) && WholeBucket(srv, rows, column, value)
    ensures Bucket(tc, column, value) - Ids(rows) == {}
  {
    forall id | id in Bucket(tc, column, value) ensures id in Ids(rows) {
      assert IndexAgrees(srv, tc.rows, column, tc.indexes[column]);
      assert (value, id) in tc.indexes[column].entries;
      assert srv[id] in rows;
      var k :| 0 <= k < |rows| && rows[k] == srv[id];
    }
  }

  lemma {:induction false} DropNothing(tc: TableCache)
    ensures DropStale(tc, {}) == tc
  {
    forall c | c in tc.indexes ensures DropStale(tc, {}).indexes[c] == tc.indexes[c] {
      assert DropStale(tc, {}).indexes[c].entries == tc.indexes[c].entries;
      assert StaleValues(tc, {}, c) == {};
    }
    assert DropStale(tc, {}).indexes == tc.indexes;
    assert tc.rows - {} == tc.rows;
  }

  lemma {:induction false} PopulateForValueAgrees(srv: Table, tables: Tables, t: string, column: string, value: I64,
                                                  rows: seq<Row>, indexed: set<string>, now: nat)
    requires IdsMatch(srv) && Fetched(srv, rows) && WholeBucket(srv, rows, column, value)
    requires t in tables ==> Agrees(srv, tables[t])
    ensures Agrees(srv, PopulateForValue(tables, t, column, value, rows, indexed, now)[t])
  {
    OrNewAgrees(srv, tables, t, indexed, now);
    var tc := WithIndexes(OrNew(tables, t, indexed, now), indexed);
    NothingStale(srv, tc, column, value, rows);
    DropNothing(tc);
    PutAllAgrees(srv, tc, rows);
    MarkCompleteAgrees(srv, PutAll(tc, rows), rows, column, {value});
  }

  lemma {:induction false} PopulatePartialAgrees(srv: Table, tables: Tables, t: string, rows: seq<Row>,
                                                 indexed: set<string>, pk: Option<string>, now: nat)
    requires IdsMatch(srv) && Fetched(srv, rows)
    requires pk.Some? && pk.value != ID ==>
      forall v | v in ValuesOf(rows, pk.value) :: WholeBucket(srv, rows, pk.value, v)
    requires t in tables ==> Agrees(srv, tables[t])
    ensures Agrees(srv, PopulatePartial(tables, t, rows, indexed, pk, now)[t])
  {
    OrNewAgrees(srv, tables, t, indexed, now);
    var tc := OrNew(tables, t, indexed, now);
    InsertAllAgrees(srv, tc, rows);
    if pk.Some? && pk.value != ID {
      MarkCompleteAgrees(srv, InsertAll(tc, rows), rows, pk.value, ValuesOf(rows, pk.value));
    }
  }

  /** A bucket refresh is authoritative even for a cache that has fallen behind:
      afterwards the bucket lists only rows that were just fetched. */
  lemma {:induction false} RefreshIsAuthoritative(tables: Tables, t: string, column: string, value: I64, rows: seq<Row>,
                                                  indexed: set<string>, now: nat)
    requires t in tables ==> forall c, e | c in tables[t].indexes && e in tables[t].indexes[c].entries ::
      e.1 in tables[t].rows && IntOf(tables[t].rows[e.1], c) == Some(e.0)
    ensures Bucket(PopulateForValue(tables, t, column, value, rows, indexed, now)[t], column, value) <= Ids(rows)
  {
    var tc := WithIndexes(OrNew(tables, t, indexed, now), indexed);
    var kept := DropStale(tc, Bucket(tc, column, value) - Ids(rows));
    if column in tc.indexes {
      forall e | e in kept.indexes[column].entries && e.0 == value ensures e.1 in Ids(rows) {
      }
    }
    PutAllBucket(kept, column, value, rows);
  }

  lemma {:induction false} PutAllBucket(tc: TableCache, column: string, value: I64, rows: seq<Row>)
    requires Bucket(tc, column, value) <= Ids(rows)
    ensures PutAll(tc, rows).indexes.Keys == tc.indexes.Keys
    ensures Bucket(PutAll(tc, rows), column, value) <= Ids(rows)
  {
    PutAllEntries(tc, column, rows);
  }

  lemma {:induction false} PutAllEntries(tc: TableCache, column: string, rows: seq<Row>)
    ensures PutAll(tc, rows).indexes.Keys == tc.indexes.Keys
    ensures column in tc.indexes ==> forall e | e in PutAll(tc, rows).indexes[column].entries ::
      e in tc.indexes[column].entries || e.1 in Ids(rows)
  {
    if rows != [] {
      var before := rows[..|rows| - 1];
      PutAllEntries(tc, column, before);
      assert Ids(before) <= Ids(rows) by {
        forall id | id in Ids(before) ensures id in Ids(rows) {
          var k :| 0 <= k < |before| && RowId(before[k]) == Some(id);
          assert rows[k] == before[k];
        }
      }
      assert RowId(rows[|rows| - 1]).Some? ==> RowId(rows[|rows| - 1]).value in Ids(rows);
    }
  }

  // ---------------------------------------------------------------------
  // Landing a proven change
  // ---------------------------------------------------------------------

  // A write that covers every other column lands as a row, a narrower one as a
  // patch; a patch of a row that is not here only withdraws claims.
  function Land(tc: TableCache, cols: set<string>, row: Row): TableCache {
    match RowId(row)
    case None => tc
    case Some(id) =>
      if cols != {} && cols <= row.Keys then Insert(tc, row)
      else if id in tc.rows then Update(tc, id, row - {ID})
      else LeaveBuckets(tc, row - {ID})
  }

  /** What the server accepts: patches of existing rows, and new rows with every
      column of a table that has columns. */
  ghost predicate Acceptable(srv: Table, cols: set<string>, row: Row) {
    && RowId(row).Some? && row.Keys <= cols + {ID}
    && (RowId(row).value !in srv ==> cols != {} && row.Keys == cols + {ID})
  }

  lemma {:induction false} LandAgrees(srv: Table, cols: set<string>, tc: TableCache, row: Row)
    requires Agrees(srv, tc) && WellTyped(srv, cols) && Acceptable(srv, cols, row)
    ensures Agrees(ServerPut(srv, row), Land(tc, cols, row)) && WellTyped(ServerPut(srv, row), cols)
  {
    hide Agrees, Insert, Update, LeaveBuckets;
    var id := RowId(row).value;
    if cols != {} && cols <= row.Keys {
      InsertAgrees(srv, cols, tc, row);
    } else {
      assert srv[id] + row == srv[id] + (row - {ID});
      if id in tc.rows { UpdateAgrees(srv, cols, tc, id, row - {ID}); }
      else { LeaveBucketsAgrees(srv, cols, tc, id, row - {ID}); }
    }
  }

  // ---------------------------------------------------------------------
  // Queries
  // ---------------------------------------------------------------------

  predicate IsLeast(x: I64, ids: set<I64>) { x in ids && forall y | y in ids :: x <= y }

  lemma {:induction false} LeastExists(ids: set<I64>)
    requires ids != {}
    ensures exists x :: IsLeast(x, ids)
    decreases |ids|
  {
    var x :| x in ids;
    if ids == {x} {
      assert IsLeast(x, ids);
    } else {
      LeastExists(ids - {x});
      var y :| IsLeast(y, ids - {x});
      var z := if x < y then x else y;
      forall w | w in ids ensures z <= w {
        if w != x { assert w in ids - {x}; }
      }
      assert IsLeast(z, ids);
    }
  }

  function Least(ids: set<I64>): (x: I64)
    requires ids != {}
    ensures IsLeast(x, ids)
  {
    LeastExists(ids);
    var x :| x in ids && IsLeast(x, ids);
    x
  }

  /** The ids in ascending order. */
  function Ascending(ids: set<I64>): (s: seq<I64>)
    ensures forall x :: x in s <==> x in ids
    ensures forall k | 0 <= k < |s| :: s[k] in ids
    ensures forall j, k | 0 <= j < k < |s| :: s[j] < s[k]
  {
    if ids == {} then []
    else [Least(ids)] + Ascending(ids - {Least(ids)})
  }

  function RowsAt(rows: map<I64, Row>, ids: seq<I64>): seq<Row>
    requires forall k | 0 <= k < |ids| :: ids[k] in rows
  {
    seq(|ids|, k requires 0 <= k < |ids| => rows[ids[k]])
  }

  // A query as the cache sees it: at most one integer equality.
  datatype Predicate = Everything | ColumnIs(column: string, value: I64) | IdIs(id: I64) | Beyond(wanted: iset<Row>)

  ghost predicate Matches(p: Predicate, row: Row) {
    match p
    case Everything => true
    case ColumnIs(column, value) => IntOf(row, column) == Some(value)
    case IdIs(id) => RowId(row) == Some(id)
    case Beyond(wanted) => row in wanted
  }

  function Extract(p: Predicate): (seq<(string, I64)>, seq<I64>) {
    match p
    case ColumnIs(column, value) => ([(column, value)], [])
    case IdIs(id) => ([], [id])
    case _ => ([], [])
  }

  predicate BucketServes(tc: TableCache, clauses: seq<(string, I64)>) {
    |clauses| == 1 && clauses[0].0 in tc.indexes && clauses[0].1 in tc.indexes[clauses[0].0].complete
  }

  function Resident(tc: TableCache, column: string, value: I64): set<I64> {
    set id | id in Bucket(tc, column, value) && id in tc.rows
  }

  function Query(tc: TableCache, clauses: seq<(string, I64)>, ids: seq<I64>): Option<seq<Row>> {
    if tc.complete then Some(RowsAt(tc.rows, Ascending(tc.rows.Keys)))
    else if BucketServes(tc, clauses) then
      Some(RowsAt(tc.rows, Ascending(Resident(tc, clauses[0].0, clauses[0].1))))
    else if ids != [] && clauses == [] then
      if forall k | 0 <= k < |ids| :: ids[k] in tc.rows then Some(RowsAt(tc.rows, ids)) else None
    else None
  }

  /** The server's answer: its matching rows, by id. */
  ghost function Answer(srv: Table, p: Predicate): seq<Row> {
    RowsAt(srv, Ascending(Matching(srv, srv.Keys, p)))
  }

  ghost function Filter(rows: seq<Row>, p: Predicate): seq<Row> {
    if rows == [] then []
    else Filter(rows[..|rows| - 1], p) + if Matches(p, rows[|rows| - 1]) then [rows[|rows| - 1]] else []
  }

  lemma {:induction false} FilterAll(rows: seq<Row>, p: Predicate)
    requires forall k | 0 <= k < |rows| :: Matches(p, rows[k])
    ensures Filter(rows, p) == rows
  {
    if rows != [] {
      FilterAll(rows[..|rows| - 1], p);
      assert rows == rows[..|rows| - 1] + [rows[|rows| - 1]];
    }
  }

  lemma {:induction false} FilterConcat(a: seq<Row>, b: seq<Row>, p: Predicate)
    ensures Filter(a + b, p) == Filter(a, p) + Filter(b, p)
    decreases |b|
  {
    if b == [] {
      assert a + b == a;
    } else {
      FilterConcat(a, b[..|b| - 1], p);
      assert (a + b)[..|a + b| - 1] == a + b[..|b| - 1];
    }
  }

  lemma {:induction false} AscendingStarts(ids: set<I64>, x: I64)
    requires IsLeast(x, ids)
    ensures Ascending(ids) == [x] + Ascending(ids - {x})
  {
    assert Least(ids) == x;
  }

  lemma {:induction false} AscendingFrom(rows: map<I64, Row>, ids: set<I64>, x: I64)
    requires ids <= rows.Keys && IsLeast(x, ids)
    ensures RowsAt(rows, Ascending(ids)) == [rows[x]] + RowsAt(rows, Ascending(ids - {x}))
  {
    hide Ascending;
    AscendingStarts(ids, x);
  }

  ghost function Matching(srv: Table, ids: set<I64>, p: Predicate): set<I64>
    requires ids <= srv.Keys
  {
    set id | id in ids && Matches(p, srv[id])
  }

  lemma {:induction false} MatchingWithout(srv: Table, ids: set<I64>, p: Predicate, x: I64)
    requires ids <= srv.Keys && IsLeast(x, ids)
    ensures Matching(srv, ids - {x}, p) == Matching(srv, ids, p) - {x}
    ensures Matches(p, srv[x]) ==> IsLeast(x, Matching(srv, ids, p))
    ensures !Matches(p, srv[x]) ==> Matching(srv, ids - {x}, p) == Matching(srv, ids, p)
  {
  }

  /** Filtering the rows in id order gives the matching rows in id order. */
  lemma {:induction false} FilterAscending(srv: Table, ids: set<I64>, p: Predicate)
    requires ids <= srv.Keys
    ensures Filter(RowsAt(srv, Ascending(ids)), p) == RowsAt(srv, Ascending(Matching(srv, ids, p)))
    decreases |ids|
  {
    hide Ascending, Filter, Matches;
    if ids == {} {
      assert Matching(srv, ids, p) == {};
      EmptyAscending(srv, p);
    } else {
      var x := Least(ids);
      MatchingWithout(srv, ids, p, x);
      FilterAscending(srv, ids - {x}, p);
      AscendingFrom(srv, ids, x);
      hide Matching, RowsAt;
      FilterConcat([srv[x]], RowsAt(srv, Ascending(ids - {x})), p);
      FilterOne(srv[x], p);
      if Matches(p, srv[x]) { AscendingFrom(srv, Matching(srv, ids, p), x); }
    }
  }

  lemma EmptyAscending(srv: Table, p: Predicate)
    ensures Filter(RowsAt(srv, Ascending({})), p) == RowsAt(srv, Ascending({})) == []
  {
  }

  lemma FilterOne(row: Row, p: Predicate)
    ensures Filter([row], p) == if Matches(p, row) then [row] else []
  {
  }

  /** A hit, after the caller's filter, is the server's answer. */
  lemma {:induction false} HitIsServerAnswer(srv: Table, tc: TableCache, p: Predicate)
    requires IdsMatch(srv) && Agrees(srv, tc)
    ensures var (clauses, ids) := Extract(p);
      Query(tc, clauses, ids).Some? ==> Filter(Query(tc, clauses, ids).value, p) == Answer(srv, p)
  {
    hide Ascending, Filter, IndexAgrees;
    var (clauses, ids) := Extract(p);
    if tc.complete {
      CompleteIsServer(srv, tc);
      FilterAscending(srv, srv.Keys, p);
    } else if BucketServes(tc, clauses) {
      BucketIsAnswer(srv, tc, p);
    } else if p.IdIs? {
      assert ids == [p.id] && ids[0] == p.id;
      if p.id in tc.rows {
        SingleIsAnswer(srv, p);
        assert Query(tc, clauses, ids).value == [srv[p.id]];
      }
    }
  }

  lemma {:induction false} CompleteIsServer(srv: Table, tc: TableCache)
    requires Agrees(srv, tc) && tc.complete
    ensures tc.rows == srv
  {
    hide IndexAgrees, RowsAgree;
    SameTable(srv, tc.rows);
  }

  lemma SameTable(srv: Table, rows: Table)
    requires RowsAgree(srv, rows) && rows.Keys == srv.Keys
    ensures rows == srv
  {
  }

  lemma {:induction false} SingleIsAnswer(srv: Table, p: Predicate)
    requires IdsMatch(srv) && p.IdIs? && p.id in srv
    ensures Filter([srv[p.id]], p) == Answer(srv, p) == [srv[p.id]]
  {
    hide Ascending;
    var matching := Matching(srv, srv.Keys, p);
    assert forall id | id in srv :: RowId(srv[id]) == Some(id);
    assert forall id :: id in matching <==> id == p.id;
    assert matching == {p.id};
    AscendingFrom(srv, matching, p.id);
    assert matching - {p.id} == {};
    EmptyAscending(srv, p);
    FilterOne(srv[p.id], p);
  }

  lemma {:induction false} BucketMatches(srv: Table, tc: TableCache, p: Predicate)
    requires IdsMatch(srv) && Agrees(srv, tc) && p.ColumnIs? && BucketServes(tc, Extract(p).0)
    ensures Resident(tc, p.column, p.value) == Matching(srv, srv.Keys, p)
  {
    var bucket := Resident(tc, p.column, p.value);
    var matching := Matching(srv, srv.Keys, p);
    assert IndexAgrees(srv, tc.rows, p.column, tc.indexes[p.column]);
    assert forall id | id in bucket :: id in matching;
    forall id | id in matching ensures id in bucket {
      assert (p.value, id) in tc.indexes[p.column].entries;
    }
  }

  lemma {:induction false} BucketIsAnswer(srv: Table, tc: TableCache, p: Predicate)
    requires IdsMatch(srv) && Agrees(srv, tc) && !tc.complete && p.ColumnIs? && BucketServes(tc, Extract(p).0)
    ensures Query(tc, Extract(p).0, Extract(p).1).Some?
    ensures Filter(Query(tc, Extract(p).0, Extract(p).1).value, p) == Answer(srv, p)
  {
    hide Ascending, Bucket, IndexAgrees;
    BucketMatches(srv, tc, p);
    var ids := Resident(tc, p.column, p.value);
    var rows := RowsAt(srv, Ascending(ids));
    forall k | 0 <= k < |rows| ensures Matches(p, rows[k]) {
      assert Ascending(ids)[k] in ids;
    }
    FilterAll(rows, p);
    assert RowsAt(tc.rows, Ascending(ids)) == rows;
  }

  /** A hit on a list of ids gives the server's row for each, in the asked order. */
  lemma {:induction false} IdHitIsServerRows(srv: Table, tc: TableCache, ids: seq<I64>)
    requires Agrees(srv, tc) && !tc.complete && Query(tc, [], ids).Some?
    ensures var rows := Query(tc, [], ids).value;
      |rows| == |ids| && forall k | 0 <= k < |ids| :: ids[k] in srv && rows[k] == srv[ids[k]]
  {
    hide IndexAgrees;
    assert ids != [];
    forall k | 0 <= k < |ids| ensures ids[k] in srv && tc.rows[ids[k]] == srv[ids[k]] {
      assert ids[k] in tc.rows;
    }
  }

  // ---------------------------------------------------------------------
  // Every run
  // ---------------------------------------------------------------------

  function LandAll(tc: TableCache, cols: set<string>, puts: seq<Row>): TableCache {
    if puts == [] then tc else Land(LandAll(tc, cols, puts[..|puts| - 1]), cols, puts[|puts| - 1])
  }

  function ServerPuts(srv: Table, puts: seq<Row>): Table {
    if puts == [] then srv else ServerPut(ServerPuts(srv, puts[..|puts| - 1]), puts[|puts| - 1])
  }

  ghost predicate AllAcceptable(srv: Table, cols: set<string>, puts: seq<Row>) {
    forall k | 0 <= k < |puts| :: Acceptable(ServerPuts(srv, puts[..k]), cols, puts[k])
  }

  // Writes to rows the same change deletes are not landed.
  function Retained(puts: seq<Row>, deletes: set<I64>): seq<Row> {
    if puts == [] then []
    else
      var row := puts[|puts| - 1];
      Retained(puts[..|puts| - 1], deletes) + (if RowId(row).Some? && RowId(row).value in deletes then [] else [row])
  }

  lemma {:induction false} RetainedAll(puts: seq<Row>, deletes: set<I64>)
    requires forall k | 0 <= k < |puts| :: RowId(puts[k]).Some? ==> RowId(puts[k]).value !in deletes
    ensures Retained(puts, deletes) == puts
  {
    if puts != [] {
      RetainedAll(puts[..|puts| - 1], deletes);
      assert puts == puts[..|puts| - 1] + [puts[|puts| - 1]];
    }
  }

  lemma {:induction false} LandAllAgrees(srv: Table, cols: set<string>, tc: TableCache, puts: seq<Row>)
    requires Agrees(srv, tc) && WellTyped(srv, cols) && AllAcceptable(srv, cols, puts)
    ensures Agrees(ServerPuts(srv, puts), LandAll(tc, cols, puts)) && WellTyped(ServerPuts(srv, puts), cols)
  {
    hide Agrees, WellTyped, Acceptable, Land, ServerPut;
    if puts != [] {
      var before := puts[..|puts| - 1];
      assert forall k | 0 <= k < |before| :: before[..k] == puts[..k] && before[k] == puts[k];
      LandAllAgrees(srv, cols, tc, before);
      LandAgrees(ServerPuts(srv, before), cols, LandAll(tc, cols, before), puts[|puts| - 1]);
    }
  }

  datatype ServerTable = ServerTable(cols: set<string>, rows: Table)
  datatype World = World(cache: Tables, server: map<string, ServerTable>)

  datatype Op =
    | FetchAll(t: string, rows: seq<Row>, indexed: set<string>, now: nat)
    | FetchBucket(t: string, column: string, value: I64, rows: seq<Row>, indexed: set<string>, now: nat)
    | FetchSome(t: string, rows: seq<Row>, indexed: set<string>, pk: Option<string>, now: nat)
    | InitTable(t: string, indexed: set<string>, now: nat)
    | Change(t: string, deletes: set<I64>, puts: seq<Row>, decoded: bool)
    | Touch(t: string, now: nat)
    | Forget(dropped: set<string>)   // invalidation, clearing and eviction

  /** Fetches are exact, and writes are ones the server accepts. */
  ghost predicate Mirrors(w: World, op: Op) {
    match op
    case FetchAll(t, rows, indexed, now) =>
      && t in w.server && Fetched(w.server[t].rows, rows)
      && forall id | id in w.server[t].rows :: w.server[t].rows[id] in rows
    case FetchBucket(t, column, value, rows, indexed, now) =>
      t in w.server && Fetched(w.server[t].rows, rows) && WholeBucket(w.server[t].rows, rows, column, value)
    case FetchSome(t, rows, indexed, pk, now) =>
      && t in w.server && Fetched(w.server[t].rows, rows)
      && (pk.Some? && pk.value != ID ==>
            forall v | v in ValuesOf(rows, pk.value) :: WholeBucket(w.server[t].rows, rows, pk.value, v))
    case InitTable(t, indexed, now) => t in w.server
    case Change(t, deletes, puts, decoded) =>
      && t in w.server && AllAcceptable(w.server[t].rows - deletes, w.server[t].cols, puts)
      && forall k | 0 <= k < |puts| :: RowId(puts[k]).Some? ==> RowId(puts[k]).value !in deletes
    case _ => true
  }

  /** The server's and the client's side of one operation. */
  function Step(w: World, op: Op): World {
    match op
    case FetchAll(t, rows, indexed, now) => w.(cache := PopulateFull(w.cache, t, rows, indexed, now))
    case FetchBucket(t, column, value, rows, indexed, now) =>
      w.(cache := PopulateForValue(w.cache, t, column, value, rows, indexed, now))
    case FetchSome(t, rows, indexed, pk, now) => w.(cache := PopulatePartial(w.cache, t, rows, indexed, pk, now))
    case InitTable(t, indexed, now) => w.(cache := w.cache[t := OrNew(w.cache, t, indexed, now)])
    case Change(t, deletes, puts, decoded) =>
      if t !in w.server then w
      else
        var table := w.server[t];
        World(if t !in w.cache then w.cache
              else if !decoded then w.cache - {t}
              else w.cache[t := LandAll(RemoveAll(w.cache[t], deletes), table.cols, Retained(puts, deletes))],
              w.server[t := table.(rows := ServerPuts(table.rows - deletes, puts))])
    case Touch(t, now) => if t in w.cache then w.(cache := w.cache[t := w.cache[t].(accessed := now)]) else w
    case Forget(dropped) => w.(cache := w.cache - dropped)
  }

  ghost predicate Coherent(w: World) {
    && (forall t | t in w.server :: WellTyped(w.server[t].rows, w.server[t].cols))
    && (forall t | t in w.cache :: t in w.server && Agrees(w.server[t].rows, w.cache[t]))
  }

  lemma {:induction false} ChangeCoherent(w: World, op: Op)
    requires Coherent(w) && Mirrors(w, op) && op.Change?
    ensures Coherent(Step(w, op))
  {
    hide Agrees, WellTyped, LandAll, ServerPuts, RemoveAll, AllAcceptable;
    var t, table := op.t, w.server[op.t];
    DeletedWellTyped(table.rows, table.cols, op.deletes);
    RetainedAll(op.puts, op.deletes);
    NothingAgrees(table.rows - op.deletes);
    if t in w.cache {
      RemoveAllAgrees(table.rows, w.cache[t], op.deletes);
      LandAllAgrees(table.rows - op.deletes, table.cols, RemoveAll(w.cache[t], op.deletes), op.puts);
    } else {
      LandAllAgrees(table.rows - op.deletes, table.cols, NewTable({}, 0), op.puts);
    }
  }

  lemma DeletedWellTyped(srv: Table, cols: set<string>, ids: set<I64>)
    requires WellTyped(srv, cols)
    ensures WellTyped(srv - ids, cols)
  {
  }

  lemma NothingAgrees(srv: Table)
    ensures Agrees(srv, NewTable({}, 0))
  {
  }

  lemma TouchedAgrees(srv: Table, tc: TableCache, now: nat)
    requires Agrees(srv, tc)
    ensures Agrees(srv, tc.(accessed := now))
  {
  }

  lemma WellTypedIds(srv: Table, cols: set<string>)
    requires WellTyped(srv, cols)
    ensures IdsMatch(srv)
  {
  }

  lemma {:induction false} StepCoherent(w: World, op: Op)
    requires Coherent(w) && Mirrors(w, op)
    ensures Coherent(Step(w, op))
  {
    hide Agrees, WellTyped, PutAll, InsertAll;
    if !op.Touch? && !op.Forget? { WellTypedIds(w.server[op.t].rows, w.server[op.t].cols); }
    match op
    case FetchAll(t, rows, indexed, now) => PopulateFullAgrees(w.server[t].rows, w.cache, t, rows, indexed, now);
    case FetchBucket(t, column, value, rows, indexed, now) =>
      PopulateForValueAgrees(w.server[t].rows, w.cache, t, column, value, rows, indexed, now);
    case FetchSome(t, rows, indexed, pk, now) =>
      PopulatePartialAgrees(w.server[t].rows, w.cache, t, rows, indexed, pk, now);
    case InitTable(t, indexed, now) => OrNewAgrees(w.server[t].rows, w.cache, t, indexed, now);
    case Change(_, _, _, _) => ChangeCoherent(w, op);
    case Touch(t, now) => if t in w.cache { TouchedAgrees(w.server[t].rows, w.cache[t], now); }
    case Forget(dropped) =>
  }

  function Run(w: World, ops: seq<Op>): World {
    if ops == [] then w else Step(Run(w, ops[..|ops| - 1]), ops[|ops| - 1])
  }

  ghost predicate AllMirror(w: World, ops: seq<Op>) {
    forall k | 0 <= k < |ops| :: Mirrors(Run(w, ops[..k]), ops[k])
  }

  lemma {:induction false} RunCoherent(w: World, ops: seq<Op>)
    requires Coherent(w) && AllMirror(w, ops)
    ensures Coherent(Run(w, ops))
  {
    hide Coherent, Mirrors, Step;
    if ops != [] {
      var before := ops[..|ops| - 1];
      assert forall k | 0 <= k < |before| :: before[..k] == ops[..k] && before[k] == ops[k];
      RunCoherent(w, before);
      StepCoherent(Run(w, before), ops[|ops| - 1]);
    }
  }

  /** After any run that mirrors the server, starting with an empty cache, what
      the cache serves is what the server would answer. */
  lemma {:induction false} EveryHitIsServerAnswer(server: map<string, ServerTable>, ops: seq<Op>, t: string,
                                                  p: Predicate)
    requires forall u | u in server :: WellTyped(server[u].rows, server[u].cols)
    requires AllMirror(World(map[], server), ops)
    ensures var w := Run(World(map[], server), ops);
      var (clauses, ids) := Extract(p);
      t in w.cache && Query(w.cache[t], clauses, ids).Some? ==>
        t in w.server && Filter(Query(w.cache[t], clauses, ids).value, p) == Answer(w.server[t].rows, p)
  {
    hide Run, Query, Filter, Answer, AllMirror, Agrees, WellTyped;
    RunCoherent(World(map[], server), ops);
    var w := Run(World(map[], server), ops);
    if t in w.cache {
      WellTypedIds(w.server[t].rows, w.server[t].cols);
      HitIsServerAnswer(w.server[t].rows, w.cache[t], p);
    }
  }

  // ---------------------------------------------------------------------
  // Every resident row is listed in every index
  // ---------------------------------------------------------------------

  ghost predicate ListedIn(rows: map<I64, Row>, c: string, ix: Index) {
    forall id | id in rows && IntOf(rows[id], c).Some? :: (IntOf(rows[id], c).value, id) in ix.entries
  }

  ghost predicate Listed(tc: TableCache) { forall c | c in tc.indexes :: ListedIn(tc.rows, c, tc.indexes[c]) }

  /** An index added to a table that has rows starts empty: the rows stay listed
      exactly when none of them has an integer in a new column. */
  lemma {:induction false} NewIndexListedIff(tc: TableCache, indexed: set<string>)
    requires Listed(tc)
    ensures Listed(WithIndexes(tc, indexed)) <==>
      forall c, id | c in indexed - tc.indexes.Keys && id in tc.rows :: IntOf(tc.rows[id], c).None?
  {
    var tc' := WithIndexes(tc, indexed);
    forall c | c in tc.indexes ensures ListedIn(tc'.rows, c, tc'.indexes[c]) {
      assert ListedIn(tc.rows, c, tc.indexes[c]);
    }
    if Listed(tc') {
      forall c, id | c in indexed - tc.indexes.Keys && id in tc.rows ensures IntOf(tc.rows[id], c).None? {
        assert ListedIn(tc'.rows, c, tc'.indexes[c]);
      }
    }
    if forall c, id | c in indexed - tc.indexes.Keys && id in tc.rows :: IntOf(tc.rows[id], c).None? {
      forall c | c in tc'.indexes ensures ListedIn(tc'.rows, c, tc'.indexes[c]) {
        if c !in tc.indexes { assert c in indexed - tc.indexes.Keys; }
      }
    }
  }

  lemma {:induction false} PutListed(tc: TableCache, row: Row)
    requires Listed(tc)
    ensures Listed(Put(tc, row)) && Put(tc, row).indexes.Keys == tc.indexes.Keys
  {
    var tc' := Put(tc, row);
    forall c | c in tc'.indexes ensures ListedIn(tc'.rows, c, tc'.indexes[c]) {
      assert ListedIn(tc.rows, c, tc.indexes[c]);
    }
  }

  lemma {:induction false} PutAllListed(tc: TableCache, rows: seq<Row>)
    requires Listed(tc)
    ensures Listed(PutAll(tc, rows)) && PutAll(tc, rows).indexes.Keys == tc.indexes.Keys
  {
    hide Listed, Put;
    if rows != [] {
      PutAllListed(tc, rows[..|rows| - 1]);
      PutListed(PutAll(tc, rows[..|rows| - 1]), rows[|rows| - 1]);
    }
  }

  lemma {:induction false} InsertListed(tc: TableCache, row: Row)
    requires Listed(tc)
    ensures Listed(Insert(tc, row))
  {
    var tc' := Insert(tc, row);
    forall c | c in tc'.indexes ensures ListedIn(tc'.rows, c, tc'.indexes[c]) {
      assert ListedIn(tc.rows, c, tc.indexes[c]);
    }
  }

  lemma {:induction false} InsertAllListed(tc: TableCache, rows: seq<Row>)
    requires Listed(tc)
    ensures Listed(InsertAll(tc, rows))
  {
    hide Listed, Insert;
    if rows != [] {
      InsertAllListed(tc, rows[..|rows| - 1]);
      InsertListed(InsertAll(tc, rows[..|rows| - 1]), rows[|rows| - 1]);
    }
  }

  lemma {:induction false} RemoveAllListed(tc: TableCache, ids: set<I64>)
    requires Listed(tc)
    ensures Listed(RemoveAll(tc, ids)) && Listed(DropStale(tc, ids))
  {
    hide StaleValues;
    var a, b := RemoveAll(tc, ids), DropStale(tc, ids);
    forall c | c in tc.indexes ensures ListedIn(a.rows, c, a.indexes[c]) && ListedIn(b.rows, c, b.indexes[c]) {
      assert ListedIn(tc.rows, c, tc.indexes[c]);
    }
  }

  lemma {:induction false} UpdateListed(tc: TableCache, id: I64, updates: Row)
    requires Listed(tc) && id in tc.rows
    ensures Listed(Update(tc, id, updates))
  {
    var tc' := Update(tc, id, updates);
    forall c | c in tc'.indexes ensures ListedIn(tc'.rows, c, tc'.indexes[c]) {
      assert ListedIn(tc.rows, c, tc.indexes[c]);
    }
  }

  lemma {:induction false} ClaimsListed(tc: TableCache, updates: Row, column: string, values: set<I64>)
    requires Listed(tc)
    ensures Listed(LeaveBuckets(tc, updates)) && Listed(MarkComplete(tc, column, values))
  {
    var a, b := LeaveBuckets(tc, updates), MarkComplete(tc, column, values);
    forall c | c in tc.indexes ensures ListedIn(a.rows, c, a.indexes[c]) && ListedIn(b.rows, c, b.indexes[c]) {
      assert ListedIn(tc.rows, c, tc.indexes[c]);
    }
  }

  lemma {:induction false} LandAllListed(tc: TableCache, cols: set<string>, puts: seq<Row>)
    requires Listed(tc)
    ensures Listed(LandAll(tc, cols, puts))
  {
    hide Listed, Insert, Update, LeaveBuckets;
    if puts != [] {
      var row, before := puts[|puts| - 1], LandAll(tc, cols, puts[..|puts| - 1]);
      LandAllListed(tc, cols, puts[..|puts| - 1]);
      InsertListed(before, row);
      ClaimsListed(before, row - {ID}, "", {});
      if RowId(row).Some? && RowId(row).value in before.rows { UpdateListed(before, RowId(row).value, row - {ID}); }
    }
  }

  // No row that stays and was not fetched has an integer in a column that the
  // fetch brings a new index for.
  ghost predicate FetchLists(tc: TableCache, column: string, value: I64, rows: seq<Row>, indexed: set<string>) {
    forall c, id | c in indexed - tc.indexes.Keys && id in tc.rows - Bucket(tc, column, value) - Ids(rows) ::
      IntOf(tc.rows[id], c).None?
  }

  ghost predicate Steady(w: World, op: Op) {
    op.FetchBucket? && op.t in w.cache ==> FetchLists(w.cache[op.t], op.column, op.value, op.rows, op.indexed)
  }

  ghost predicate AllListed(w: World) { forall t | t in w.cache :: Listed(w.cache[t]) }

  /** An operation keeps every resident row listed in every index exactly when it
      is not a bucket fetch whose new indexes would leave one out. */
  lemma {:induction false} StepListed(w: World, op: Op)
    requires AllListed(w)
    ensures AllListed(Step(w, op)) <==> Steady(w, op)
  {
    hide Listed, PutAll, InsertAll, LandAll, RemoveAll, DropStale, MarkComplete, WithIndexes, Cleared, FetchLists;
    match op
    case FetchAll(t, rows, indexed, now) =>
      var tc := WithIndexes(OrNew(w.cache, t, indexed, now), indexed);
      ClearedListed(tc);
      PutAllListed(Cleared(tc), rows);
      TouchedListed(PutAll(Cleared(tc), rows), true, now);
    case FetchBucket(t, column, value, rows, indexed, now) => FetchListed(w, op);
    case FetchSome(t, rows, indexed, pk, now) =>
      NewListed(indexed, now);
      InsertAllListed(OrNew(w.cache, t, indexed, now), rows);
      if pk.Some? {
        ClaimsListed(InsertAll(OrNew(w.cache, t, indexed, now), rows), map[], pk.value, ValuesOf(rows, pk.value));
      }
    case InitTable(t, indexed, now) => NewListed(indexed, now);
    case Change(t, deletes, puts, decoded) =>
      if t in w.cache && t in w.server {
        RemoveAllListed(w.cache[t], deletes);
        LandAllListed(RemoveAll(w.cache[t], deletes), w.server[t].cols, Retained(puts, deletes));
      }
    case Touch(t, now) => if t in w.cache { TouchedListed(w.cache[t], w.cache[t].complete, now); }
    case Forget(dropped) =>
  }

  lemma {:induction false} FetchListed(w: World, op: Op)
    requires AllListed(w) && op.FetchBucket?
    ensures AllListed(Step(w, op)) <==> Steady(w, op)
  {
    hide Listed, PutAll, DropStale, MarkComplete, WithIndexes, FetchLists;
    var t, indexed := op.t, op.indexed;
    if t in w.cache {
      FetchListedIff(w.cache, t, op.column, op.value, op.rows, indexed, op.now);
    } else {
      NewListed(indexed, op.now);
      var tc := WithIndexes(NewTable(indexed, op.now), indexed);
      SameIndexes(NewTable(indexed, op.now), indexed);
      NewIndexListedIff(NewTable(indexed, op.now), indexed);
      var kept := DropStale(tc, Bucket(tc, op.column, op.value) - Ids(op.rows));
      RemoveAllListed(tc, Bucket(tc, op.column, op.value) - Ids(op.rows));
      PutAllListed(kept, op.rows);
      ClaimsListed(PutAll(kept, op.rows), map[], op.column, {op.value});
      var marked := MarkComplete(PutAll(kept, op.rows), op.column, {op.value});
      TouchedListed(marked, marked.complete, op.now);
    }
  }

  ghost predicate AllSteady(w: World, ops: seq<Op>) {
    forall k | 0 <= k < |ops| :: Steady(Run(w, ops[..k]), ops[k])
  }

  lemma {:induction false} RunListed(w: World, ops: seq<Op>)
    requires AllListed(w) && AllSteady(w, ops)
    ensures AllListed(Run(w, ops))
  {
    hide Listed, Step, Steady;
    if ops != [] {
      var before := ops[..|ops| - 1];
      assert forall k | 0 <= k < |before| :: before[..k] == ops[..k] && before[k] == ops[k];
      RunListed(w, before);
      assert ops[..|before|] == before;
      StepListed(Run(w, before), ops[|ops| - 1]);
    }
  }

  /** After any mirrored run without such a fetch, an index lists a row under a
      value exactly when the row is resident and has that value. */
  lemma {:induction false} EveryIndexIsExact(server: map<string, ServerTable>, ops: seq<Op>, t: string, c: string,
                                             v: I64, id: I64)
    requires forall u | u in server :: WellTyped(server[u].rows, server[u].cols)
    requires AllMirror(World(map[], server), ops) && AllSteady(World(map[], server), ops)
    ensures var w := Run(World(map[], server), ops);
      t in w.cache && c in w.cache[t].indexes ==>
        ((v, id) in w.cache[t].indexes[c].entries <==>
          id in w.cache[t].rows && IntOf(w.cache[t].rows[id], c) == Some(v))
  {
    hide Run, AllMirror, AllSteady, WellTyped;
    RunCoherent(World(map[], server), ops);
    RunListed(World(map[], server), ops);
    var w := Run(World(map[], server), ops);
    if t in w.cache && c in w.cache[t].indexes {
      assert IndexAgrees(w.server[t].rows, w.cache[t].rows, c, w.cache[t].indexes[c]);
      assert Listed(w.cache[t]) && ListedIn(w.cache[t].rows, c, w.cache[t].indexes[c]);
    }
  }

  ghost predicate ListedAt(tc: TableCache, c: string, id: I64) {
    c in tc.indexes && id in tc.rows && IntOf(tc.rows[id], c).Some? ==>
      (IntOf(tc.rows[id], c).value, id) in tc.indexes[c].entries
  }

  // Putting rows lists them and leaves the others as they were.
  lemma {:induction false} PutAllListedAt(tc: TableCache, rows: seq<Row>, c: string, id: I64)
    ensures ListedAt(PutAll(tc, rows), c, id) <==> id in Ids(rows) || ListedAt(tc, c, id)
    ensures PutAll(tc, rows).indexes.Keys == tc.indexes.Keys
    ensures id !in Ids(rows) ==> (id in PutAll(tc, rows).rows <==> id in tc.rows)
  {
    hide Ids;
    if rows == [] {
      NoRowIds();
    } else {
      var before, last := rows[..|rows| - 1], rows[|rows| - 1];
      SplitRowIds(rows);
      PutAllListedAt(tc, before, c, id);
    }
  }

  lemma NoRowIds()
    ensures Ids([]) == {}
  {
  }

  lemma {:induction false} SplitRowIds(rows: seq<Row>)
    requires rows != []
    ensures var last := rows[|rows| - 1];
      Ids(rows) == Ids(rows[..|rows| - 1]) + if RowId(last).Some? then {RowId(last).value} else {}
  {
    var before, last := rows[..|rows| - 1], rows[|rows| - 1];
    assert forall k | 0 <= k < |before| :: before[k] == rows[k];
    forall k | 0 <= k < |rows| && RowId(rows[k]).Some?
      ensures RowId(rows[k]).value in Ids(before) + if RowId(last).Some? then {RowId(last).value} else {}
    {
      if k < |before| { assert RowId(before[k]).value in Ids(before); }
    }
    assert RowId(last).Some? ==> RowId(rows[|rows| - 1]).value in Ids(rows);
  }

  /** A fetch of one bucket keeps every row listed exactly when no row that stays
      and was not fetched has an integer in a column that is newly indexed. */
  lemma {:induction false} FetchListedIff(tables: Tables, t: string, column: string, value: I64, rows: seq<Row>,
                                          indexed: set<string>, now: nat)
    requires t in tables && Listed(tables[t])
    ensures t in PopulateForValue(tables, t, column, value, rows, indexed, now)
    ensures Listed(PopulateForValue(tables, t, column, value, rows, indexed, now)[t]) <==>
      FetchLists(tables[t], column, value, rows, indexed)
  {
    var tc := tables[t];
    var grown := WithIndexes(tc, indexed);
    var stale := Bucket(grown, column, value) - Ids(rows);
    var kept := DropStale(grown, stale);
    var put := PutAll(kept, rows);
    var marked := PopulateForValue(tables, t, column, value, rows, indexed, now)[t];
    BucketGrown(tc, indexed, column, value);
    hide PutAll, Ids, Bucket, DropStale, RemoveAll;
    assert marked.rows == put.rows && marked.indexes.Keys == put.indexes.Keys;
    assert forall c, id :: ListedAt(marked, c, id) <==> ListedAt(put, c, id);
    ListedEverywhere(marked);
    ListedEverywhere(tc);
    hide Listed, PopulateForValue;
    forall c, id ensures ListedAt(marked, c, id) <==>
        (c in indexed - tc.indexes.Keys && id in tc.rows && id !in Bucket(tc, column, value) && id !in Ids(rows) ==>
          IntOf(tc.rows[id], c).None?)
    {
      PutAllListedAt(kept, rows, c, id);
      KeptListedAt(tc, indexed, stale, c, id);
      assert ListedAt(tc, c, id);
    }
  }

  lemma {:induction false} BucketGrown(tc: TableCache, indexed: set<string>, column: string, value: I64)
    ensures Bucket(WithIndexes(tc, indexed), column, value) == Bucket(tc, column, value)
  {
  }

  lemma {:induction false} ListedEverywhere(tc: TableCache)
    ensures Listed(tc) <==> forall c, id :: ListedAt(tc, c, id)
  {
    if Listed(tc) {
      forall c, id ensures ListedAt(tc, c, id) { if c in tc.indexes { assert ListedIn(tc.rows, c, tc.indexes[c]); } }
    }
    if forall c, id :: ListedAt(tc, c, id) {
      forall c, id | c in tc.indexes && id in tc.rows && IntOf(tc.rows[id], c).Some?
        ensures (IntOf(tc.rows[id], c).value, id) in tc.indexes[c].entries
      {
        assert ListedAt(tc, c, id);
      }
    }
  }

  lemma {:induction false} KeptListedAt(tc: TableCache, indexed: set<string>, stale: set<I64>, c: string, id: I64)
    requires ListedAt(tc, c, id)
    ensures ListedAt(DropStale(WithIndexes(tc, indexed), stale), c, id) <==>
      (c in indexed - tc.indexes.Keys && id in tc.rows && id !in stale ==> IntOf(tc.rows[id], c).None?)
  {
    hide StaleValues;
  }

  function OneRow(): Row { map[ID := Int(1), "a" := Int(5)] }

  // The server's table and the client's copy of it, cached before "a" was indexed.
  function BeforeIndex(): World {
    World(map["t" := TableCache(map[1 := OneRow()], map[], false, 0)],
          map["t" := ServerTable({"a"}, map[1 := OneRow()])])
  }

  lemma {:induction false} BeforeIndexReached()
    ensures var start := World(map[], BeforeIndex().server);
      var op := FetchSome("t", [OneRow()], {}, None, 0);
      Coherent(start) && Mirrors(start, op) && Step(start, op) == BeforeIndex()
  {
    assert OneRow().Keys == {"a"} + {ID} && RowId(OneRow()) == Some(1);
    assert InsertAll(NewTable({}, 0), [OneRow()]) == Insert(InsertAll(NewTable({}, 0), []), OneRow()) by {
      assert [OneRow()][..0] == [];
    }
  }

  lemma {:induction false} BeforeIndexFetched()
    ensures var op := FetchBucket("t", "a", 6, [], {"a"}, 1);
      Mirrors(BeforeIndex(), op) && AllListed(BeforeIndex()) && !AllListed(Step(BeforeIndex(), op))
  {
    var w := BeforeIndex();
    var tc := w.cache["t"];
    assert "a" in {"a"} - tc.indexes.Keys && 1 in tc.rows && IntOf(tc.rows[1], "a").Some?;
    NoRowIds();
    FetchListedIff(w.cache, "t", "a", 6, [], {"a"}, 1);
  }

  /** For instance: a row is cached, then a fetch indexes its column and asks for a
      bucket the row is not in.  The row stays and is listed nowhere. */
  lemma {:induction false} FetchUnlists()
    ensures var first, op := FetchSome("t", [OneRow()], {}, None, 0), FetchBucket("t", "a", 6, [], {"a"}, 1);
      var start := World(map[], BeforeIndex().server);
      && Coherent(start) && Mirrors(start, first) && Step(start, first) == BeforeIndex()
      && Mirrors(BeforeIndex(), op) && AllListed(BeforeIndex()) && !AllListed(Step(BeforeIndex(), op))
  {
    hide Coherent, Mirrors, Step, AllListed, BeforeIndex, OneRow;
    BeforeIndexReached();
    BeforeIndexFetched();
  }

  lemma ClearedListed(tc: TableCache)
    ensures Listed(Cleared(tc))
  {
  }

  lemma NewListed(indexed: set<string>, now: nat)
    ensures Listed(NewTable(indexed, now)) && NewTable(indexed, now).indexes.Keys == indexed
  {
  }

  lemma SameIndexes(tc: TableCache, indexed: set<string>)
    requires indexed <= tc.indexes.Keys
    ensures indexed - tc.indexes.Keys == {}
  {
  }

  lemma TouchedListed(tc: TableCache, complete: bool, now: nat)
    requires Listed(tc)
    ensures Listed(tc.(complete := complete, accessed := now)) && Listed(tc.(accessed := now))
  {
  }
}
