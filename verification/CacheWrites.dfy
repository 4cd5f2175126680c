/** The column writes of accepted changes, and the rows that are put together from
    them and landed in the cache. */
module CacheWrites {
  import opened Prelude
  import opened Cache

  // The store holds a value per column and row; a row is there while its
  // columns are.
  datatype Cell = Cell(id: I64, column: string, value: Value)

  function WriteCell(srv: Table, cell: Cell): Table {
    srv[cell.id := (if cell.id in srv then srv[cell.id] else map[ID := Int(cell.id)])[cell.column := cell.value]]
  }

  function WriteCells(srv: Table, cells: seq<Cell>): Table {
    if cells == [] then srv else WriteCell(WriteCells(srv, cells[..|cells| - 1]), cells[|cells| - 1])
  }

  function CellIds(cells: seq<Cell>): set<I64> { set k | 0 <= k < |cells| :: cells[k].id }

  function ColumnsFor(cells: seq<Cell>, id: I64): set<string> {
    set k | 0 <= k < |cells| && cells[k].id == id :: cells[k].column
  }

  // The row put together from the cells written for `id`.
  function RowFrom(cells: seq<Cell>, id: I64): Row {
    if cells == [] then map[ID := Int(id)]
    else
      var cell, row := cells[|cells| - 1], RowFrom(cells[..|cells| - 1], id);
      if cell.id == id then row[cell.column := cell.value] else row
  }

  function RowsFrom(cells: seq<Cell>, ids: seq<I64>): seq<Row> {
    seq(|ids|, k requires 0 <= k < |ids| => RowFrom(cells, ids[k]))
  }

  /** The written cells as rows, by id: what is landed. */
  function Reassembled(cells: seq<Cell>): seq<Row> { RowsFrom(cells, Ascending(CellIds(cells))) }

  // An insert names one absent row and covers exactly the schema's columns.
  ghost predicate InsertOk(srv: Table, cols: set<string>, cells: seq<Cell>) {
    && cells != []
    && (forall k | 0 <= k < |cells| :: cells[k].id == cells[0].id)
    && ColumnsFor(cells, cells[0].id) == cols && cells[0].id !in srv
  }

  // An update writes known columns of existing rows.
  ghost predicate UpdateOk(srv: Table, cols: set<string>, cells: seq<Cell>) {
    cells != [] && forall k | 0 <= k < |cells| :: cells[k].column in cols && cells[k].id in srv
  }

  function Flat(legs: seq<seq<Cell>>): seq<Cell> {
    if legs == [] then [] else Flat(legs[..|legs| - 1]) + legs[|legs| - 1]
  }

  /** The inserts and updates of one change, each checked after the earlier ones. */
  ghost predicate Accepted(srv: Table, cols: set<string>, legs: seq<seq<Cell>>) {
    legs != [] ==>
      var before, leg := legs[..|legs| - 1], legs[|legs| - 1];
      && Accepted(srv, cols, before)
      && (InsertOk(WriteCells(srv, Flat(before)), cols, leg) || UpdateOk(WriteCells(srv, Flat(before)), cols, leg))
  }

  // All columns are known, and a row that was not there gets every one.
  ghost predicate Covered(srv: Table, cols: set<string>, cells: seq<Cell>) {
    && (forall k | 0 <= k < |cells| :: cells[k].column in cols)
    && (forall id | id in CellIds(cells) && id !in srv :: ColumnsFor(cells, id) == cols)
  }

  lemma {:induction false} WrittenIds(srv: Table, cells: seq<Cell>)
    ensures WriteCells(srv, cells).Keys == srv.Keys + CellIds(cells)
  {
    hide CellIds;
    NoIds();
    if cells != [] {
      SplitIds(cells);
      WrittenIds(srv, cells[..|cells| - 1]);
    }
  }

  lemma {:induction false} CellsConcat(a: seq<Cell>, b: seq<Cell>, id: I64)
    ensures CellIds(a + b) == CellIds(a) + CellIds(b)
    ensures ColumnsFor(a + b, id) == ColumnsFor(a, id) + ColumnsFor(b, id)
  {
    var s := a + b;
    assert forall k | 0 <= k < |a| :: s[k] == a[k];
    assert forall k | 0 <= k < |b| :: s[|a| + k] == b[k];
    assert forall k | |a| <= k < |s| :: s[k] == b[k - |a|];
  }

  lemma {:induction false} LegColumns(srv: Table, cols: set<string>, leg: seq<Cell>, id: I64)
    requires InsertOk(srv, cols, leg) || UpdateOk(srv, cols, leg)
    ensures forall k | 0 <= k < |leg| :: leg[k].column in cols
    ensures ColumnsFor(leg, id) <= cols
    ensures id in CellIds(leg) && id !in srv ==> ColumnsFor(leg, id) == cols
  {
    assert forall k | 0 <= k < |leg| :: leg[k].column in ColumnsFor(leg, leg[k].id);
  }

  lemma {:induction false} LegCovers(srv: Table, cols: set<string>, before: seq<Cell>, leg: seq<Cell>)
    requires Covered(srv, cols, before)
    requires InsertOk(WriteCells(srv, before), cols, leg) || UpdateOk(WriteCells(srv, before), cols, leg)
    ensures Covered(srv, cols, before + leg)
  {
    WrittenIds(srv, before);
    hide WriteCells, InsertOk, UpdateOk, CellIds;
    var cells := before + leg;
    LegColumns(WriteCells(srv, before), cols, leg, 0);
    forall k | 0 <= k < |cells| ensures cells[k].column in cols {
      assert cells[k] == if k < |before| then before[k] else leg[k - |before|];
    }
    forall id | id in CellIds(cells) && id !in srv ensures ColumnsFor(cells, id) == cols {
      assert ColumnsFor(before, id) <= cols;
      hide ColumnsFor;
      CellsConcat(before, leg, id);
      LegColumns(WriteCells(srv, before), cols, leg, id);
    }
  }

  lemma {:induction false} AcceptedCovers(srv: Table, cols: set<string>, legs: seq<seq<Cell>>)
    requires Accepted(srv, cols, legs)
    ensures Covered(srv, cols, Flat(legs))
  {
    hide Covered, InsertOk, UpdateOk, WriteCells;
    if legs == [] {
      NothingCovered(srv, cols);
    } else {
      AcceptedCovers(srv, cols, legs[..|legs| - 1]);
      LegCovers(srv, cols, Flat(legs[..|legs| - 1]), legs[|legs| - 1]);
    }
  }

  lemma NothingCovered(srv: Table, cols: set<string>)
    ensures Covered(srv, cols, [])
  {
  }

  lemma {:induction false} RowFromColumns(cells: seq<Cell>, id: I64)
    ensures RowFrom(cells, id).Keys == ColumnsFor(cells, id) + {ID}
    ensures ID !in ColumnsFor(cells, id) ==> RowId(RowFrom(cells, id)) == Some(id)
  {
    if cells != [] {
      var before, last := cells[..|cells| - 1], cells[|cells| - 1];
      RowFromColumns(before, id);
      assert cells == before + [last];
      CellsConcat(before, [last], id);
      assert ColumnsFor([last], id) == if last.id == id then {last.column} else {} by {
        assert last.id == id ==> [last][0].column in ColumnsFor([last], id);
      }
    }
  }

  // The new columns over the old ones.
  function Patched(srv: Table, id: I64, row: Row): Row { if id in srv then srv[id] + row else row }

  lemma {:induction false} PatchedCell(srv: Table, id: I64, row: Row, column: string, value: Value)
    ensures Patched(srv, id, row)[column := value] == Patched(srv, id, row[column := value])
  {
  }

  lemma {:induction false} PatchedId(srv: Table, id: I64)
    requires IdsMatch(srv)
    ensures Patched(srv, id, map[ID := Int(id)]) == if id in srv then srv[id] else map[ID := Int(id)]
  {
    if id in srv { assert srv[id] + map[ID := Int(id)] == srv[id]; }
  }

  lemma {:induction false} WrittenRow(srv: Table, cells: seq<Cell>, id: I64)
    requires IdsMatch(srv) && id in srv.Keys + CellIds(cells)
    ensures id in WriteCells(srv, cells) && WriteCells(srv, cells)[id] == Patched(srv, id, RowFrom(cells, id))
  {
    hide Patched, CellIds, IdsMatch;
    PatchedId(srv, id);
    if cells == [] {
      NoIds();
    } else {
      var before, last := cells[..|cells| - 1], cells[|cells| - 1];
      SplitIds(cells);
      WrittenIds(srv, before);
      if id in srv.Keys + CellIds(before) {
        WrittenRow(srv, before, id);
      } else {
        Unwritten(before, id);
      }
      PatchedCell(srv, id, RowFrom(before, id), last.column, last.value);
    }
  }

  lemma NoIds()
    ensures CellIds([]) == {}
  {
  }

  lemma {:induction false} SplitIds(cells: seq<Cell>)
    requires cells != []
    ensures CellIds(cells) == CellIds(cells[..|cells| - 1]) + {cells[|cells| - 1].id}
  {
    var before, last := cells[..|cells| - 1], cells[|cells| - 1];
    assert forall k | 0 <= k < |before| :: before[k] == cells[k];
    forall k | 0 <= k < |cells| ensures cells[k].id in CellIds(before) + {last.id} {
      if k < |before| { assert before[k].id in CellIds(before); }
    }
    assert cells[|cells| - 1].id in CellIds(cells);
  }

  lemma {:induction false} Unwritten(cells: seq<Cell>, id: I64)
    requires id !in CellIds(cells)
    ensures RowFrom(cells, id) == map[ID := Int(id)]
  {
    hide CellIds;
    if cells != [] {
      SplitIds(cells);
      Unwritten(cells[..|cells| - 1], id);
    }
  }

  predicate Increasing(ids: seq<I64>) { forall j, k | 0 <= j < k < |ids| :: ids[j] < ids[k] }

  ghost predicate OwnIds(cells: seq<Cell>, ids: seq<I64>) {
    forall k | 0 <= k < |ids| :: RowId(RowFrom(cells, ids[k])) == Some(ids[k])
  }

  lemma {:induction false} SplitRows(cells: seq<Cell>, ids: seq<I64>)
    requires OwnIds(cells, ids) && Increasing(ids) && ids != []
    ensures var before, last := ids[..|ids| - 1], ids[|ids| - 1];
      && OwnIds(cells, before) && Increasing(before) && RowId(RowFrom(cells, last)) == Some(last)
      && RowsFrom(cells, ids) == RowsFrom(cells, before) + [RowFrom(cells, last)]
      && last !in before && ids == before + [last]
  {
    hide RowFrom;
  }

  lemma {:induction false} PutsStep(srv: Table, puts: seq<Row>, row: Row)
    ensures ServerPuts(srv, []) == srv
    ensures ServerPuts(srv, puts + [row]) == ServerPut(ServerPuts(srv, puts), row)
  {
    assert (puts + [row])[..|puts + [row]| - 1] == puts;
  }

  // Putting the rows one after the other: each id gets its row, once.
  lemma {:induction false} PutRows(srv: Table, cells: seq<Cell>, ids: seq<I64>, id: I64)
    requires OwnIds(cells, ids) && Increasing(ids)
    ensures var t := ServerPuts(srv, RowsFrom(cells, ids));
      && (id in t <==> id in srv || id in ids)
      && (id in t ==> t[id] == if id in ids then Patched(srv, id, RowFrom(cells, id)) else srv[id])
  {
    hide RowFrom, OwnIds, Increasing, ServerPuts;
    if ids == [] {
      assert RowsFrom(cells, ids) == [];
      PutsStep(srv, [], map[]);
    } else {
      hide RowsFrom;
      var before, last := ids[..|ids| - 1], ids[|ids| - 1];
      SplitRows(cells, ids);
      PutRows(srv, cells, before, id);
      PutsStep(srv, RowsFrom(cells, before), RowFrom(cells, last));
    }
  }

  /** The rows put together from an accepted change are the server's own writes,
      each one a patch of a row it has or a new row with every column; in
      particular the table has a column besides the id. */
  lemma {:induction false} AcceptedRows(srv: Table, cols: set<string>, legs: seq<seq<Cell>>)
    requires WellTyped(srv, cols) && Accepted(srv, cols, legs)
    ensures var cells := Flat(legs);
      && AllAcceptable(srv, cols, Reassembled(cells))
      && ServerPuts(srv, Reassembled(cells)) == WriteCells(srv, cells)
      && (cells != [] ==> cols != {})
  {
    AcceptedCovers(srv, cols, legs);
    CoveredRows(srv, cols, Flat(legs));
  }

  lemma {:induction false} CoveredRow(cols: set<string>, cells: seq<Cell>, id: I64)
    requires ID !in cols && forall k | 0 <= k < |cells| :: cells[k].column in cols
    ensures RowId(RowFrom(cells, id)) == Some(id) && RowFrom(cells, id).Keys <= cols + {ID}
    ensures ColumnsFor(cells, id) == cols ==> RowFrom(cells, id).Keys == cols + {ID}
  {
    RowFromColumns(cells, id);
  }

  lemma {:induction false} CoveredIds(cols: set<string>, cells: seq<Cell>, n: nat)
    requires ID !in cols && (forall k | 0 <= k < |cells| :: cells[k].column in cols) && n <= |Ascending(CellIds(cells))|
    ensures var ids := Ascending(CellIds(cells))[..n];
      OwnIds(cells, ids) && Increasing(ids) && Reassembled(cells)[..n] == RowsFrom(cells, ids)
  {
    hide RowFrom, CellIds;
    var ids := Ascending(CellIds(cells))[..n];
    forall k | 0 <= k < |ids| ensures RowId(RowFrom(cells, ids[k])) == Some(ids[k]) { CoveredRow(cols, cells, ids[k]); }
  }

  lemma {:induction false} SameAt(srv: Table, cols: set<string>, cells: seq<Cell>, id: I64)
    requires WellTyped(srv, cols) && forall k | 0 <= k < |cells| :: cells[k].column in cols
    ensures var t, u := ServerPuts(srv, Reassembled(cells)), WriteCells(srv, cells);
      (id in t <==> id in u) && (id in t ==> t[id] == u[id])
  {
    var ids := Ascending(CellIds(cells));
    CoveredIds(cols, cells, |ids|);
    assert ids[..|ids|] == ids && Reassembled(cells)[..|ids|] == Reassembled(cells);
    hide RowFrom, WriteCells, ServerPuts, CellIds, RowsFrom, Reassembled, Ascending, OwnIds, Increasing, Patched;
    PutRows(srv, cells, ids, id);
    WrittenIds(srv, cells);
    if id in srv || id in CellIds(cells) {
      WrittenRow(srv, cells, id);
      PatchedId(srv, id);
      if id !in ids { Unwritten(cells, id); }
    }
  }

  lemma {:induction false} SameTable(srv: Table, cols: set<string>, cells: seq<Cell>)
    requires WellTyped(srv, cols) && forall k | 0 <= k < |cells| :: cells[k].column in cols
    ensures ServerPuts(srv, Reassembled(cells)) == WriteCells(srv, cells)
  {
    hide WriteCells, ServerPuts, Reassembled, WellTyped;
    var t, u := ServerPuts(srv, Reassembled(cells)), WriteCells(srv, cells);
    forall id: I64 ensures (id in t <==> id in u) && (id in t ==> t[id] == u[id]) { SameAt(srv, cols, cells, id); }
  }

  lemma {:induction false} CoveredRows(srv: Table, cols: set<string>, cells: seq<Cell>)
    requires WellTyped(srv, cols) && Covered(srv, cols, cells)
    ensures AllAcceptable(srv, cols, Reassembled(cells))
    ensures ServerPuts(srv, Reassembled(cells)) == WriteCells(srv, cells)
    ensures cells != [] ==> cols != {}
  {
    assert cells != [] ==> cells[0].column in cols;
    hide WriteCells, ServerPuts, Reassembled, WellTyped, Acceptable;
    SameTable(srv, cols, cells);
    var puts := Reassembled(cells);
    forall k | 0 <= k < |puts| ensures Acceptable(ServerPuts(srv, puts[..k]), cols, puts[k]) {
      CoveredAcceptable(srv, cols, cells, k);
    }
  }

  lemma {:induction false} CoveredAcceptable(srv: Table, cols: set<string>, cells: seq<Cell>, k: nat)
    requires WellTyped(srv, cols) && Covered(srv, cols, cells) && k < |Reassembled(cells)|
    ensures Acceptable(ServerPuts(srv, Reassembled(cells)[..k]), cols, Reassembled(cells)[k])
  {
    var ids := Ascending(CellIds(cells));
    CoveredIds(cols, cells, k);
    CoveredRow(cols, cells, ids[k]);
    hide RowFrom, ServerPuts, ColumnsFor, WellTyped, OwnIds, Increasing, CellIds;
    assert Reassembled(cells)[k] == RowFrom(cells, ids[k]);
    PutRows(srv, cells, ids[..k], ids[k]);
  }

  /** Landing an accepted change keeps the cache in agreement with the store. */
  lemma {:induction false} AcceptedChangeLands(srv: Table, cols: set<string>, tc: TableCache, legs: seq<seq<Cell>>)
    requires Agrees(srv, tc) && WellTyped(srv, cols) && Accepted(srv, cols, legs)
    ensures Agrees(WriteCells(srv, Flat(legs)), LandAll(tc, cols, Reassembled(Flat(legs))))
    ensures WellTyped(WriteCells(srv, Flat(legs)), cols)
  {
    hide Agrees, WellTyped, AllAcceptable, WriteCells, Reassembled;
    AcceptedRows(srv, cols, legs);
    LandAllAgrees(srv, cols, tc, Reassembled(Flat(legs)));
  }

  /** Such a change is one of the operations after which every hit is the server's
      answer, and the server's side of it is the cell by cell write. */
  lemma {:induction false} AcceptedMirrors(w: World, t: string, deletes: set<I64>, legs: seq<seq<Cell>>, decoded: bool)
    requires Coherent(w) && t in w.server && Accepted(w.server[t].rows - deletes, w.server[t].cols, legs)
    requires CellIds(Flat(legs)) !! deletes
    ensures var op := Change(t, deletes, Reassembled(Flat(legs)), decoded);
      && Mirrors(w, op)
      && Step(w, op).server[t].rows == WriteCells(w.server[t].rows - deletes, Flat(legs))
  {
    hide Agrees, AllAcceptable, WriteCells, WellTyped, CellIds, ServerPuts;
    var srv, cells := w.server[t].rows - deletes, Flat(legs);
    DeletedWellTyped(w.server[t].rows, w.server[t].cols, deletes);
    AcceptedRows(srv, w.server[t].cols, legs);
    AcceptedCovers(srv, w.server[t].cols, legs);
    OwnRows(srv, w.server[t].cols, cells);
  }

  lemma {:induction false} OwnRows(srv: Table, cols: set<string>, cells: seq<Cell>)
    requires WellTyped(srv, cols) && Covered(srv, cols, cells)
    ensures forall k | 0 <= k < |Reassembled(cells)| ::
      RowId(Reassembled(cells)[k]).Some? && RowId(Reassembled(cells)[k]).value in CellIds(cells)
  {
    hide RowFrom, CellIds, ColumnsFor;
    var ids := Ascending(CellIds(cells));
    forall k | 0 <= k < |ids| ensures RowId(RowFrom(cells, ids[k])) == Some(ids[k]) && ids[k] in CellIds(cells) {
      CoveredRow(cols, cells, ids[k]);
    }
  }
}
