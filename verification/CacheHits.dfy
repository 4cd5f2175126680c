/** When the cache answers: exactly which queries it serves, what each fetch makes it
    serve, and how long it goes on doing so. */
module CacheHits {
  import opened Prelude
  import opened Cache

  // ---------------------------------------------------------------------
  // Which queries are served
  // ---------------------------------------------------------------------

  predicate Hits(tc: TableCache, p: Predicate) {
    var (clauses, ids) := Extract(p);
    Query(tc, clauses, ids).Some?
  }

  predicate Claims(tc: TableCache, c: string, v: I64) { c in tc.indexes && v in tc.indexes[c].complete }

  /** A query is served exactly from a complete table, from a claimed bucket, or for
      the id of a resident row. */
  lemma {:induction false} HitsIff(tc: TableCache, p: Predicate)
    ensures Hits(tc, p) <==>
      tc.complete || (p.ColumnIs? && Claims(tc, p.column, p.value)) || (p.IdIs? && p.id in tc.rows)
  {
    hide Ascending, RowsAt, Resident;
    if p.IdIs? { assert [p.id][0] == p.id; }
  }

  /** Served, and with the server's answer. */
  ghost predicate Serves(srv: Table, tc: TableCache, p: Predicate) {
    var (clauses, ids) := Extract(p);
    Query(tc, clauses, ids).Some? && Filter(Query(tc, clauses, ids).value, p) == Answer(srv, p)
  }

  lemma {:induction false} HitServes(srv: Table, tc: TableCache, p: Predicate)
    requires IdsMatch(srv) && Agrees(srv, tc) && Hits(tc, p)
    ensures Serves(srv, tc, p)
  {
    hide Query, Filter, Answer, Agrees;
    HitIsServerAnswer(srv, tc, p);
  }

  // ---------------------------------------------------------------------
  // What a fetch makes the cache serve
  // ---------------------------------------------------------------------

  lemma {:induction false} PutAllKeeps(tc: TableCache, rows: seq<Row>, c: string, v: I64, id: I64)
    ensures PutAll(tc, rows).complete == tc.complete
    ensures Claims(PutAll(tc, rows), c, v) <==> Claims(tc, c, v)
    ensures PutAll(tc, rows).indexes.Keys == tc.indexes.Keys
    ensures id in tc.rows ==> id in PutAll(tc, rows).rows
  {
    if rows != [] { PutAllKeeps(tc, rows[..|rows| - 1], c, v, id); }
  }

  lemma {:induction false} InsertAllKeeps(tc: TableCache, rows: seq<Row>, c: string, v: I64, id: I64)
    ensures InsertAll(tc, rows).complete == tc.complete
    ensures Claims(InsertAll(tc, rows), c, v) <==> Claims(tc, c, v)
    ensures InsertAll(tc, rows).indexes.Keys == tc.indexes.Keys
    ensures id in tc.rows ==> id in InsertAll(tc, rows).rows
  {
    if rows != [] { InsertAllKeeps(tc, rows[..|rows| - 1], c, v, id); }
  }

  /** After a full fetch the table is cached whole and every query is served. */
  lemma {:induction false} FullFetchServes(srv: Table, tables: Tables, t: string, rows: seq<Row>, indexed: set<string>,
                                           now: nat, p: Predicate)
    requires IdsMatch(srv) && Fetched(srv, rows) && forall id | id in srv :: srv[id] in rows
    ensures var tc := PopulateFull(tables, t, rows, indexed, now)[t];
      tc.complete && tc.rows == srv && tc.accessed == now && Serves(srv, tc, p)
  {
    hide PutAll, Serves, Hits;
    PopulateFullAgrees(srv, tables, t, rows, indexed, now);
    var tc := PopulateFull(tables, t, rows, indexed, now)[t];
    assert tc.rows == srv;
    HitsIff(tc, p);
    HitServes(srv, tc, p);
  }

  /** After a bucket fetch the bucket is claimed and the query for it served; whatever
      was served before still is. */
  lemma {:induction false} BucketFetchServes(srv: Table, tables: Tables, t: string, column: string, value: I64,
                                             rows: seq<Row>, indexed: set<string>, now: nat, p: Predicate)
    requires IdsMatch(srv) && Fetched(srv, rows) && WholeBucket(srv, rows, column, value)
    requires t in tables ==> Agrees(srv, tables[t])
    ensures var tc := PopulateForValue(tables, t, column, value, rows, indexed, now)[t];
      && (column in indexed || (t in tables && column in tables[t].indexes) ==>
            Claims(tc, column, value) && Serves(srv, tc, ColumnIs(column, value)))
      && (t in tables && Hits(tables[t], p) ==> Serves(srv, tc, p))
      && tc.accessed == now
  {
    hide PutAll, Serves, Hits, Agrees, WholeBucket;
    PopulateForValueAgrees(srv, tables, t, column, value, rows, indexed, now);
    var tc := PopulateForValue(tables, t, column, value, rows, indexed, now)[t];
    BucketFetchKeeps(srv, tables, t, column, value, rows, indexed, now);
    if column in indexed || (t in tables && column in tables[t].indexes) {
      HitsIff(tc, ColumnIs(column, value));
      HitServes(srv, tc, ColumnIs(column, value));
    }
    if t in tables && Hits(tables[t], p) {
      HitsIff(tables[t], p);
      HitsIff(tc, p);
      HitServes(srv, tc, p);
    }
  }

  lemma {:induction false} BucketFetchKeeps(srv: Table, tables: Tables, t: string, column: string, value: I64,
                                            rows: seq<Row>, indexed: set<string>, now: nat)
    requires IdsMatch(srv) && Fetched(srv, rows) && WholeBucket(srv, rows, column, value)
    requires t in tables ==> Agrees(srv, tables[t])
    ensures var tc := PopulateForValue(tables, t, column, value, rows, indexed, now)[t];
      && (column in indexed || (t in tables && column in tables[t].indexes) ==> Claims(tc, column, value))
      && (t in tables ==>
            && tc.complete == tables[t].complete
            && (forall c, v | Claims(tables[t], c, v) :: Claims(tc, c, v))
            && (forall id | id in tables[t].rows :: id in tc.rows))
  {
    hide PutAll, Agrees, WholeBucket, StaleValues;
    OrNewAgrees(srv, tables, t, indexed, now);
    var grown := WithIndexes(OrNew(tables, t, indexed, now), indexed);
    NothingStale(srv, grown, column, value, rows);
    DropNothing(grown);
    PutAllKeeps(grown, rows, column, value, 0);
    forall c, v | t in tables && Claims(tables[t], c, v) ensures Claims(PutAll(grown, rows), c, v) {
      PutAllKeeps(grown, rows, c, v, 0);
    }
    forall id | t in tables && id in tables[t].rows ensures id in PutAll(grown, rows).rows {
      PutAllKeeps(grown, rows, "", 0, id);
    }
  }

  /** After a partial fetch every fetched row is served by its id, and with a primary
      key that is indexed every value it brought. */
  lemma {:induction false} PartialFetchServes(srv: Table, tables: Tables, t: string, rows: seq<Row>,
                                              indexed: set<string>, pk: Option<string>, now: nat, k: nat)
    requires IdsMatch(srv) && Fetched(srv, rows) && k < |rows| && (t in tables ==> Agrees(srv, tables[t]))
    requires pk.Some? && pk.value != ID ==>
      forall v | v in ValuesOf(rows, pk.value) :: WholeBucket(srv, rows, pk.value, v)
    ensures RowId(rows[k]).Some?
    ensures var tc := PopulatePartial(tables, t, rows, indexed, pk, now)[t];
      && Serves(srv, tc, IdIs(RowId(rows[k]).value))
      && (pk.Some? && pk.value != ID && pk.value in OrNew(tables, t, indexed, now).indexes
          && IntOf(rows[k], pk.value).Some? ==>
            Serves(srv, tc, ColumnIs(pk.value, IntOf(rows[k], pk.value).value)))
  {
    hide InsertAll, Serves, Hits, Agrees, WholeBucket;
    PopulatePartialAgrees(srv, tables, t, rows, indexed, pk, now);
    OrNewAgrees(srv, tables, t, indexed, now);
    var tc, old0 := PopulatePartial(tables, t, rows, indexed, pk, now)[t], OrNew(tables, t, indexed, now);
    InsertAllAgrees(srv, old0, rows);
    assert Holds(InsertAll(old0, rows), rows[k]);
    HitsIff(tc, IdIs(RowId(rows[k]).value));
    HitServes(srv, tc, IdIs(RowId(rows[k]).value));
    if pk.Some? && pk.value != ID && pk.value in old0.indexes && IntOf(rows[k], pk.value).Some? {
      var v := IntOf(rows[k], pk.value).value;
      assert v in ValuesOf(rows, pk.value);
      HitsIff(tc, ColumnIs(pk.value, v));
      HitServes(srv, tc, ColumnIs(pk.value, v));
    }
  }

  // ---------------------------------------------------------------------
  // What a landed write leaves
  // ---------------------------------------------------------------------

  // The write moves no row into or out of the bucket, as far as can be seen here.
  predicate Stays(tc: TableCache, cols: set<string>, row: Row, c: string, v: I64)
    requires RowId(row).Some?
  {
    var id := RowId(row).value;
    || (cols != {} && cols <= row.Keys)
    || c !in row - {ID}
    || (id in tc.rows && (IntOf(tc.rows[id], c) == Some(v) <==> IntOf(row, c) == Some(v)))
    || (id !in tc.rows && IntOf(row, c) != Some(v))
  }

  /** A landed write keeps the table whole, and keeps the claim on a bucket exactly
      when it moves no row into or out of it; a whole row moves none that is claimed. */
  lemma {:induction false} LandedClaimsIff(tc: TableCache, cols: set<string>, row: Row, c: string, v: I64)
    requires RowId(row).Some?
    ensures Land(tc, cols, row).complete == tc.complete
    ensures Claims(Land(tc, cols, row), c, v) <==> Claims(tc, c, v) && Stays(tc, cols, row, c, v)
  {
    var id := RowId(row).value;
    assert c in row - {ID} ==> (row - {ID})[c] == row[c];
  }

  lemma {:induction false} LandAllKeeps(tc: TableCache, cols: set<string>, puts: seq<Row>)
    ensures LandAll(tc, cols, puts).complete == tc.complete
  {
    hide Insert, Update, LeaveBuckets;
    if puts != [] {
      var row, before := puts[|puts| - 1], LandAll(tc, cols, puts[..|puts| - 1]);
      LandAllKeeps(tc, cols, puts[..|puts| - 1]);
      if RowId(row).Some? { LandedClaimsIff(before, cols, row, "", 0); }
    }
  }

  // ---------------------------------------------------------------------
  // A whole table stays whole
  // ---------------------------------------------------------------------

  /** The table is dropped: forgotten, or changed in a way that cannot be decoded. */
  predicate Drops(op: Op, t: string) {
    (op.Forget? && t in op.dropped) || (op.Change? && op.t == t && !op.decoded)
  }

  predicate Whole(w: World, t: string) { t in w.cache && w.cache[t].complete }

  lemma {:induction false} StepKeepsWhole(w: World, op: Op, t: string)
    requires Coherent(w) && Mirrors(w, op) && Whole(w, t) && !Drops(op, t)
    ensures Whole(Step(w, op), t)
  {
    hide Agrees, WellTyped, PutAll, InsertAll, LandAll, RemoveAll, WholeBucket, Fetched, AllAcceptable;
    match op
    case FetchBucket(u, column, value, rows, indexed, now) =>
      WellTypedIds(w.server[u].rows, w.server[u].cols);
      BucketFetchKeeps(w.server[u].rows, w.cache, u, column, value, rows, indexed, now);
    case FetchSome(u, rows, indexed, pk, now) => InsertAllKeeps(OrNew(w.cache, u, indexed, now), rows, "", 0, 0);
    case Change(u, deletes, puts, decoded) =>
      if u == t {
        RemoveAllKeeps(w.cache[t], deletes);
        LandAllKeeps(RemoveAll(w.cache[t], deletes), w.server[u].cols, Retained(puts, deletes));
      }
    case _ =>
  }

  lemma RemoveAllKeeps(tc: TableCache, ids: set<I64>)
    ensures RemoveAll(tc, ids).complete == tc.complete
    ensures forall c, v :: Claims(RemoveAll(tc, ids), c, v) <==> Claims(tc, c, v)
  {
  }

  /** Rows that a refresh no longer finds take with them exactly the claims on the
      values they had. */
  lemma {:induction false} StaleClaimsIff(tc: TableCache, stale: set<I64>, c: string, v: I64)
    ensures DropStale(tc, stale).complete == tc.complete
    ensures Claims(DropStale(tc, stale), c, v) <==>
      Claims(tc, c, v) && forall id | id in stale && id in tc.rows :: IntOf(tc.rows[id], c) != Some(v)
  {
    forall id | id in stale && id in tc.rows && IntOf(tc.rows[id], c) == Some(v)
      ensures v in StaleValues(tc, stale, c)
    {
    }
  }

  lemma {:induction false} RunStep(w: World, ops: seq<Op>, n: nat)
    requires n < |ops|
    ensures Run(w, ops[..n + 1]) == Step(Run(w, ops[..n]), ops[n])
  {
    assert ops[..n + 1][..n] == ops[..n];
  }

  lemma {:induction false} WholeUntil(w: World, ops: seq<Op>, t: string, k: nat, n: nat)
    requires Coherent(w) && AllMirror(w, ops) && k < n <= |ops| && ops[k].FetchAll? && ops[k].t == t
    requires forall j | k < j < n :: !Drops(ops[j], t)
    ensures Whole(Run(w, ops[..n]), t)
    decreases n
  {
    hide Step, Drops, Mirrors, Coherent, Run, Whole;
    RunStep(w, ops, n - 1);
    var before := Run(w, ops[..n - 1]);
    if n - 1 == k {
      FetchedWhole(before, ops[k]);
    } else {
      WholeUntil(w, ops, t, k, n - 1);
      PrefixMirrors(w, ops, n - 1);
      RunCoherent(w, ops[..n - 1]);
      StepKeepsWhole(before, ops[n - 1], t);
    }
  }

  lemma FetchedWhole(w: World, op: Op)
    requires op.FetchAll?
    ensures Whole(Step(w, op), op.t)
  {
  }

  lemma {:induction false} PrefixMirrors(w: World, ops: seq<Op>, n: nat)
    requires AllMirror(w, ops) && n <= |ops|
    ensures AllMirror(w, ops[..n])
  {
    hide Run, Mirrors;
    forall k | 0 <= k < n ensures Mirrors(Run(w, ops[..n][..k]), ops[..n][k]) {
      assert ops[..n][..k] == ops[..k];
    }
  }

  /** After any mirrored run that fetched a table whole and has not dropped it since,
      every query on it is served, with the server's answer of that moment. */
  lemma {:induction false} EveryQueryHits(server: map<string, ServerTable>, ops: seq<Op>, t: string, k: nat,
                                          p: Predicate)
    requires forall u | u in server :: WellTyped(server[u].rows, server[u].cols)
    requires AllMirror(World(map[], server), ops)
    requires k < |ops| && ops[k].FetchAll? && ops[k].t == t && forall j | k < j < |ops| :: !Drops(ops[j], t)
    ensures var w := Run(World(map[], server), ops);
      t in w.cache && t in w.server && Serves(w.server[t].rows, w.cache[t], p)
  {
    var start := World(map[], server);
    WholeUntil(start, ops, t, k, |ops|);
    assert ops[..|ops|] == ops;
    RunCoherent(start, ops);
    var w := Run(start, ops);
    hide Run, AllMirror, Agrees, WellTyped, Serves, Hits;
    WellTypedIds(w.server[t].rows, w.server[t].cols);
    HitsIff(w.cache[t], p);
    HitServes(w.server[t].rows, w.cache[t], p);
  }
}
