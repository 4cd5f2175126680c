/** The prover's reads: an immutable tree snapshot seen through an overlay of the
    writes of earlier operations, against the tree those writes would give. */
module Overlay {
  import opened Prelude

  type Byte = b: int | 0 <= b < 256
  type Key = seq<Byte>
  type Value = seq<Byte>
  type Contents = map<Key, Value>
  type Rows = seq<(Key, Value)>

  // ---------------------------------------------------------------------
  // Byte order
  // ---------------------------------------------------------------------

  /** Lexicographic order, as byte slices compare. */
  predicate Less(a: Key, b: Key) {
    if b == [] then false
    else if a == [] then true
    else a[0] < b[0] || (a[0] == b[0] && Less(a[1..], b[1..]))
  }

  predicate AtLeast(a: Key, b: Key) { !Less(a, b) }

  lemma {:induction false} LessTotal(a: Key, b: Key)
    ensures !(Less(a, b) && Less(b, a))
    ensures Less(a, b) || Less(b, a) <==> a != b
  {
    if a != [] && b != [] {
      LessTotal(a[1..], b[1..]);
      assert a == [a[0]] + a[1..] && b == [b[0]] + b[1..];
    }
  }

  lemma {:induction false} LessTransitive(a: Key, b: Key, c: Key)
    requires Less(a, b) && Less(b, c)
    ensures Less(a, c)
  {
    if a != [] && a[0] == b[0] == c[0] { LessTransitive(a[1..], b[1..], c[1..]); }
  }

  predicate InRange(k: Key, start: Key, end: Option<Key>) {
    AtLeast(k, start) && (end.None? || Less(k, end.value))
  }

  // ---------------------------------------------------------------------
  // Prefixes
  // ---------------------------------------------------------------------

  /** The least key above every key with this prefix, if there is one. */
  function Successor(prefix: Key): Option<Key> {
    if prefix == [] then None
    else if prefix[|prefix| - 1] < 255 then Some(prefix[..|prefix| - 1] + [prefix[|prefix| - 1] + 1])
    else Successor(prefix[..|prefix| - 1])
  }

  method PrefixSuccessor(prefix: Key) returns (end: Option<Key>)
    ensures end == Successor(prefix)
  {
    var rest := prefix;
    while rest != []
      invariant Successor(rest) == Successor(prefix)
      decreases |rest|
    {
      var last := rest[|rest| - 1];
      if last < 255 { return Some(rest[..|rest| - 1] + [last + 1]); }
      rest := rest[..|rest| - 1];
    }
    return None;
  }

  function SuccessorFromFront(prefix: Key): Option<Key> {
    if prefix == [] then None
    else
      var rest := SuccessorFromFront(prefix[1..]);
      if rest.Some? then Some([prefix[0]] + rest.value)
      else if prefix[0] < 255 then Some([prefix[0] + 1])
      else None
  }

  lemma {:induction false} SuccessorSnoc(p: Key, b: Byte)
    ensures SuccessorFromFront(p + [b]) == if b < 255 then Some(p + [b + 1]) else SuccessorFromFront(p)
  {
    if p == [] {
      assert p + [b] == [b] && [b][1..] == [];
      if b < 255 { assert p + [b + 1] == [b + 1]; }
    } else {
      SuccessorSnoc(p[1..], b);
      assert (p + [b])[1..] == p[1..] + [b];
      if b < 255 { assert [p[0]] + (p[1..] + [b + 1]) == p + [b + 1]; }
    }
  }

  lemma {:induction false} SuccessorBothWays(prefix: Key)
    ensures Successor(prefix) == SuccessorFromFront(prefix)
  {
    if prefix != [] {
      var p, b := prefix[..|prefix| - 1], prefix[|prefix| - 1];
      assert prefix == p + [b];
      SuccessorBothWays(p);
      SuccessorSnoc(p, b);
    }
  }

  /** Having a prefix is lying between it and its successor. */
  lemma {:induction false} PrefixIsRange(prefix: Key, k: Key)
    ensures prefix <= k <==> InRange(k, prefix, Successor(prefix))
  {
    SuccessorBothWays(prefix);
    PrefixIsRangeFront(prefix, k);
  }

  lemma {:induction false} PrefixIsRangeFront(prefix: Key, k: Key)
    ensures prefix <= k <==> InRange(k, prefix, SuccessorFromFront(prefix))
  {
    if prefix != [] && k != [] {
      PrefixIsRangeFront(prefix[1..], k[1..]);
      var end, rest := SuccessorFromFront(prefix), SuccessorFromFront(prefix[1..]);
      PrefixFront(prefix, k);
      if rest.Some? {
        assert end.value[0] == prefix[0] && end.value[1..] == rest.value;
      } else if prefix[0] < 255 {
        assert end.value[0] == prefix[0] + 1 && end.value[1..] == [] && !Less(k[1..], end.value[1..]);
      }
    }
  }

  lemma PrefixFront(prefix: Key, k: Key)
    requires prefix != [] && k != []
    ensures prefix <= k <==> prefix[0] == k[0] && prefix[1..] <= k[1..]
  {
    if prefix[0] == k[0] && prefix[1..] <= k[1..] {
      assert prefix == [prefix[0]] + prefix[1..] && k == [k[0]] + k[1..];
    }
  }

  // ---------------------------------------------------------------------
  // Reads of a key-value map
  // ---------------------------------------------------------------------

  ghost predicate Ascending<T>(rows: seq<(Key, T)>) { forall i, j | 0 <= i < j < |rows| :: Less(rows[i].0, rows[j].0) }

  /** `rows` is the range read of `m`: its pairs in the range, each once, by key. */
  ghost predicate IsRead(rows: Rows, m: Contents, start: Key, end: Option<Key>) {
    && Ascending(rows)
    && forall k, v :: (k, v) in rows <==> k in m && m[k] == v && InRange(k, start, end)
  }

  /** There is only one answer to a range read. */
  lemma {:induction false} ReadUnique(a: Rows, b: Rows, m: Contents, start: Key, end: Option<Key>)
    requires IsRead(a, m, start, end) && IsRead(b, m, start, end)
    ensures a == b
  {
    hide InRange, Ascending;
    forall row ensures row in a <==> row in b {
      var (k, v) := row;
      assert (k, v) in a <==> (k, v) in b;
    }
    SameAscending(a, b);
  }

  lemma {:induction false} FirstLeast(a: Rows, row: (Key, Value))
    requires Ascending(a) && a != [] && row in a
    ensures row == a[0] || Less(a[0].0, row.0)
    ensures row in a[1..] <==> row != a[0]
  {
    var i :| 0 <= i < |a| && a[i] == row;
    LessTotal(a[0].0, a[0].0);
    if i > 0 { assert a[1..][i - 1] == row; }
    if row in a[1..] {
      var j :| 0 <= j < |a[1..]| && a[1..][j] == row;
      assert a[j + 1] == row && Less(a[0].0, a[j + 1].0);
    }
  }

  lemma {:induction false} SameAscending(a: Rows, b: Rows)
    requires Ascending(a) && Ascending(b) && forall row :: row in a <==> row in b
    ensures a == b
    decreases |a|
  {
    assert b != [] ==> b[0] in b;
    if a != [] {
      assert a[0] in b && b != [];
      assert b[0] in a;
      FirstLeast(a, b[0]);
      FirstLeast(b, a[0]);
      LessTotal(a[0].0, b[0].0);
      forall row ensures row in a[1..] <==> row in b[1..] {
        if row in a { FirstLeast(a, row); FirstLeast(b, row); }
        assert row in a[1..] ==> row in a;
        assert row in b[1..] ==> row in b;
      }
      SameAscending(a[1..], b[1..]);
      assert a == [a[0]] + a[1..] && b == [b[0]] + b[1..];
    }
  }

  // ---------------------------------------------------------------------
  // The snapshot
  // ---------------------------------------------------------------------

  datatype Tree = Leaf | Node(left: Tree, key: Key, value: Value, right: Tree)

  ghost predicate Ordered(t: Tree) {
    t.Leaf? || (
      && Ordered(t.left) && Ordered(t.right)
      && (forall k | k in Stored(t.left) :: Less(k, t.key))
      && (forall k | k in Stored(t.right) :: Less(t.key, k)))
  }

  ghost function Stored(t: Tree): Contents {
    if t.Leaf? then map[] else (Stored(t.left) + Stored(t.right))[t.key := t.value]
  }

  function Lookup(t: Tree, key: Key): Option<Value> {
    if t.Leaf? then None
    else if key == t.key then Some(t.value)
    else if Less(key, t.key) then Lookup(t.left, key)
    else Lookup(t.right, key)
  }

  lemma {:induction false} LookupStored(t: Tree, key: Key)
    requires Ordered(t)
    ensures Lookup(t, key) == if key in Stored(t) then Some(Stored(t)[key]) else None
  {
    if t.Node? {
      LookupStored(t.left, key);
      LookupStored(t.right, key);
      LessTotal(key, t.key);
    }
  }

  /** In-order traversal that skips subtrees outside the range. */
  function CollectRange(t: Tree, start: Key, end: Option<Key>): Rows {
    if t.Leaf? then []
    else
      (if Less(start, t.key) then CollectRange(t.left, start, end) else []) +
      (if InRange(t.key, start, end) then [(t.key, t.value)] else []) +
      (if end.None? || Less(t.key, end.value) then CollectRange(t.right, start, end) else [])
  }

  lemma {:induction false} AscendingConcat(a: Rows, b: Rows)
    requires Ascending(a) && Ascending(b)
    requires forall x, y | x in a && y in b :: Less(x.0, y.0)
    ensures Ascending(a + b)
  {
  }

  lemma {:induction false} Above(start: Key, mid: Key, k: Key)
    requires !Less(start, mid) && Less(k, mid)
    ensures Less(k, start)
  {
    LessTotal(start, mid);
    if start != mid { LessTransitive(k, mid, start); }
  }

  /** The traversal returns exactly the pairs in the range, in order. */
  lemma {:induction false} CollectRangeReads(t: Tree, start: Key, end: Option<Key>)
    requires Ordered(t)
    ensures IsRead(CollectRange(t, start, end), Stored(t), start, end)
  {
    if t.Node? {
      CollectRangeReads(t.left, start, end);
      CollectRangeReads(t.right, start, end);
      var left := if Less(start, t.key) then CollectRange(t.left, start, end) else [];
      var mid := if InRange(t.key, start, end) then [(t.key, t.value)] else [];
      var right := if end.None? || Less(t.key, end.value) then CollectRange(t.right, start, end) else [];
      LeftRows(t, start, end, left);
      RightRows(t, start, end, right);
      hide CollectRange, Ordered, InRange, Ascending;
      JoinRows(t, start, end, left, mid, right);
    }
  }

  // What a skipped left subtree would have contributed: nothing.
  lemma {:induction false} LeftRows(t: Tree, start: Key, end: Option<Key>, left: Rows)
    requires t.Node? && Ordered(t) && IsRead(CollectRange(t.left, start, end), Stored(t.left), start, end)
    requires left == if Less(start, t.key) then CollectRange(t.left, start, end) else []
    ensures IsRead(left, Stored(t.left), start, end)
  {
    if !Less(start, t.key) {
      forall k | k in Stored(t.left) ensures !InRange(k, start, end) {
        Above(start, t.key, k);
      }
    }
  }

  lemma {:induction false} RightRows(t: Tree, start: Key, end: Option<Key>, right: Rows)
    requires t.Node? && Ordered(t) && IsRead(CollectRange(t.right, start, end), Stored(t.right), start, end)
    requires right == if end.None? || Less(t.key, end.value) then CollectRange(t.right, start, end) else []
    ensures IsRead(right, Stored(t.right), start, end)
  {
    if end.Some? && !Less(t.key, end.value) {
      forall k | k in Stored(t.right) ensures !InRange(k, start, end) {
        LessTotal(k, end.value);
        if Less(k, end.value) { LessTransitive(t.key, k, end.value); }
      }
    }
  }

  lemma {:induction false} JoinRows(t: Tree, start: Key, end: Option<Key>, left: Rows, mid: Rows, right: Rows)
    requires t.Node? && Ordered(t)
    requires IsRead(left, Stored(t.left), start, end) && IsRead(right, Stored(t.right), start, end)
    requires mid == if InRange(t.key, start, end) then [(t.key, t.value)] else []
    ensures IsRead(left + mid + right, Stored(t), start, end)
  {
    hide InRange;
    forall x | x in left ensures Less(x.0, t.key) { assert (x.0, x.1) in left; }
    forall y | y in right ensures Less(t.key, y.0) { assert (y.0, y.1) in right; }
    forall x, y | x in left && y in right ensures Less(x.0, y.0) { LessTransitive(x.0, t.key, y.0); }
    AscendingConcat(left, mid);
    AscendingConcat(left + mid, right);
    LessTotal(t.key, t.key);
    JoinMembers(t, start, end, left, mid, right);
  }

  lemma {:induction false} JoinMembers(t: Tree, start: Key, end: Option<Key>, left: Rows, mid: Rows, right: Rows)
    requires t.Node? && Ordered(t)
    requires forall k, v :: (k, v) in left <==> k in Stored(t.left) && Stored(t.left)[k] == v && InRange(k, start, end)
    requires forall k, v :: (k, v) in right <==>
      k in Stored(t.right) && Stored(t.right)[k] == v && InRange(k, start, end)
    requires mid == if InRange(t.key, start, end) then [(t.key, t.value)] else []
    ensures forall k, v :: (k, v) in left + mid + right <==>
      k in Stored(t) && Stored(t)[k] == v && InRange(k, start, end)
  {
    hide InRange;
    LessTotal(t.key, t.key);
    forall k, v
      ensures (k, v) in left + mid + right <==> k in Stored(t) && Stored(t)[k] == v && InRange(k, start, end)
    {
      if k in Stored(t.left) && k in Stored(t.right) { LessTransitive(k, t.key, k); LessTotal(k, k); }
    }
  }

  // ---------------------------------------------------------------------
  // Writes
  // ---------------------------------------------------------------------

  datatype BatchOp = Put(key: Key, value: Value) | Delete(key: Key)

  function Write(m: Contents, op: BatchOp): Contents {
    match op
    case Put(key, value) => m[key := value]
    case Delete(key) => m - {key}
  }

  /** The tree's contents after the writes, one after the other. */
  function WriteAll(m: Contents, ops: seq<BatchOp>): Contents {
    if ops == [] then m else Write(WriteAll(m, ops[..|ops| - 1]), ops[|ops| - 1])
  }

  type Pending = map<Key, Option<Value>>

  function Note(overlay: Pending, op: BatchOp): Pending {
    match op
    case Put(key, value) => overlay[key := Some(value)]
    case Delete(key) => overlay[key := None]
  }

  function NoteAll(overlay: Pending, ops: seq<BatchOp>): Pending {
    if ops == [] then overlay else Note(NoteAll(overlay, ops[..|ops| - 1]), ops[|ops| - 1])
  }

  /** The snapshot seen through the overlay. */
  function Through(m: Contents, overlay: Pending): Contents {
    map k | k in m.Keys + overlay.Keys && (k in overlay ==> overlay[k].Some?) ::
      if k in overlay then overlay[k].value else m[k]
  }

  lemma {:induction false} ThroughNote(m: Contents, overlay: Pending, op: BatchOp)
    ensures Through(m, Note(overlay, op)) == Write(Through(m, overlay), op)
  {
  }

  /** Looking through the noted writes is looking at the written tree. */
  lemma {:induction false} ThroughIsWritten(m: Contents, ops: seq<BatchOp>)
    ensures Through(m, NoteAll(map[], ops)) == WriteAll(m, ops)
  {
    if ops == [] {
      assert Through(m, map[]) == m;
    } else {
      ThroughIsWritten(m, ops[..|ops| - 1]);
      ThroughNote(m, NoteAll(map[], ops[..|ops| - 1]), ops[|ops| - 1]);
    }
  }

  // ---------------------------------------------------------------------
  // Reading through the overlay
  // ---------------------------------------------------------------------

  datatype ReadOp = ReadKey(key: Key) | ReadPrefix(prefix: Key) | ReadRange(start: Key, end: Key)

  /** What a read of `m` returns. */
  ghost predicate Answers(rows: Rows, m: Contents, op: ReadOp) {
    match op
    case ReadKey(key) => rows == if key in m then [(key, m[key])] else []
    case ReadPrefix(prefix) => Ascending(rows) && forall k, v :: (k, v) in rows <==> k in m && m[k] == v && prefix <= k
    case ReadRange(start, end) => IsRead(rows, m, start, Some(end))
  }

  function Without(rows: Rows, key: Key): Rows {
    if rows == [] then []
    else if rows[0].0 == key then Without(rows[1..], key)
    else [rows[0]] + Without(rows[1..], key)
  }

  ghost predicate DistinctKeys<T>(rows: seq<(Key, T)>) { forall i, j | 0 <= i < j < |rows| :: rows[i].0 != rows[j].0 }

  lemma {:induction false} WithoutKey(rows: Rows, key: Key)
    ensures forall row :: row in Without(rows, key) <==> row in rows && row.0 != key
    ensures DistinctKeys(rows) ==> DistinctKeys(Without(rows, key))
  {
    if rows != [] {
      var rest := rows[1..];
      WithoutKey(rest, key);
      assert rows == [rows[0]] + rest;
      if DistinctKeys(rows) && rows[0].0 != key {
        forall j | 0 <= j < |Without(rest, key)| ensures Without(rest, key)[j].0 != rows[0].0 {
          assert Without(rest, key)[j] in rest;
          var i :| 0 <= i < |rest| && rest[i] == Without(rest, key)[j];
          assert rows[i + 1] == rest[i];
        }
      }
    }
  }

  // Retain what is not at `key`, then push the new value if there is one.
  method Upsert(rows: Rows, key: Key, value: Option<Value>) returns (merged: Rows)
    requires DistinctKeys(rows)
    ensures DistinctKeys(merged)
    ensures forall row :: row in merged <==> if row.0 == key then value == Some(row.1) else row in rows
  {
    WithoutKey(rows, key);
    merged := Without(rows, key);
    if value.Some? {
      assert forall i | 0 <= i < |merged| :: merged[i] in merged;
      merged := merged + [(key, value.value)];
    }
  }

  // ---------------------------------------------------------------------
  // Sorting by key
  // ---------------------------------------------------------------------

  lemma {:induction false} InsertedAscending<T>(s: seq<(Key, T)>, x: (Key, T), at: nat)
    requires Ascending(s) && at <= |s|
    requires forall i | 0 <= i < at :: Less(s[i].0, x.0)
    requires forall i | at <= i < |s| :: Less(x.0, s[i].0)
    ensures Ascending(s[..at] + [x] + s[at..])
  {
  }

  method Place<T>(s: seq<(Key, T)>, x: (Key, T)) returns (t: seq<(Key, T)>)
    requires Ascending(s) && forall i | 0 <= i < |s| :: s[i].0 != x.0
    ensures Ascending(t) && multiset(t) == multiset(s) + multiset{x}
  {
    var at := 0;
    while at < |s| && Less(s[at].0, x.0)
      invariant 0 <= at <= |s| && forall i | 0 <= i < at :: Less(s[i].0, x.0)
    {
      at := at + 1;
    }
    forall i | at <= i < |s| ensures Less(x.0, s[i].0) {
      LessTotal(s[at].0, x.0);
      if i > at { LessTransitive(x.0, s[at].0, s[i].0); }
    }
    InsertedAscending(s, x, at);
    t := s[..at] + [x] + s[at..];
    assert s == s[..at] + s[at..];
  }

  method SortByKey<T>(rows: seq<(Key, T)>) returns (sorted: seq<(Key, T)>)
    requires DistinctKeys(rows)
    ensures Ascending(sorted) && multiset(sorted) == multiset(rows)
  {
    sorted := [];
    for i := 0 to |rows|
      invariant Ascending(sorted) && multiset(sorted) == multiset(rows[..i])
    {
      forall j | 0 <= j < |sorted| ensures sorted[j].0 != rows[i].0 {
        assert sorted[j] in multiset(sorted);
        assert sorted[j] in rows[..i];
      }
      sorted := Place(sorted, rows[i]);
      assert rows[..i + 1] == rows[..i] + [rows[i]];
    }
    assert rows[..|rows|] == rows;
  }

  lemma {:induction false} SameElements<T>(a: seq<T>, b: seq<T>)
    requires multiset(a) == multiset(b)
    ensures forall x :: x in a <==> x in b
  {
    forall x ensures x in a <==> x in b {
      assert x in a <==> x in multiset(a);
      assert x in b <==> x in multiset(b);
    }
  }

  // ---------------------------------------------------------------------
  // Merging the overlay into a range read
  // ---------------------------------------------------------------------

  // The overlay in key order.
  method InOrder(overlay: Pending) returns (entries: seq<(Key, Option<Value>)>)
    ensures Ascending(entries)
    ensures forall k, v :: (k, v) in entries <==> k in overlay && overlay[k] == v
  {
    var left, found := overlay.Keys, [];
    while left != {}
      invariant left <= overlay.Keys && DistinctKeys(found)
      invariant forall k, v :: (k, v) in found <==> k in overlay && k !in left && overlay[k] == v
      decreases left
    {
      var k :| k in left;
      forall i | 0 <= i < |found| ensures found[i].0 != k { assert (found[i].0, found[i].1) in found; }
      found := found + [(k, overlay[k])];
      left := left - {k};
    }
    entries := SortByKey(found);
    SameElements(entries, found);
  }

  ghost predicate Seen(entries: seq<(Key, Option<Value>)>, n: nat, k: Key)
    requires n <= |entries|
  {
    exists i | 0 <= i < n :: entries[i].0 == k
  }

  ghost predicate MergedRow(m: Contents, entries: seq<(Key, Option<Value>)>, n: nat, k: Key, v: Value)
    requires n <= |entries|
  {
    if Seen(entries, n, k) then (k, Some(v)) in entries else k in m && m[k] == v
  }

  /** The rows after the first `n` overlay entries were merged in. */
  ghost predicate Merged(rows: Rows, m: Contents, entries: seq<(Key, Option<Value>)>, n: nat, start: Key,
                         end: Option<Key>)
    requires n <= |entries|
  {
    && DistinctKeys(rows)
    && forall k, v :: (k, v) in rows <==> InRange(k, start, end) && MergedRow(m, entries, n, k, v)
  }

  method ApplyOverlayToRange(snapshot: Rows, overlay: Pending, start: Key, end: Option<Key>, ghost m: Contents)
    returns (rows: Rows)
    requires IsRead(snapshot, m, start, end)
    ensures IsRead(rows, Through(m, overlay), start, end)
  {
    var entries := InOrder(overlay);
    rows := snapshot;
    MergedNone(snapshot, m, entries, start, end);
    var n := 0;
    while n < |entries|
      invariant 0 <= n <= |entries| && Merged(rows, m, entries, n, start, end)
    {
      var (key, value) := entries[n];
      if end.Some? && AtLeast(key, end.value) { break; }
      if AtLeast(key, start) {
        ghost var before := rows;
        rows := Upsert(rows, key, value);
        MergedUpsert(before, rows, m, entries, n, start, end);
      } else {
        MergedBelow(rows, m, entries, n, start, end);
      }
      n := n + 1;
    }
    MergedAll(rows, m, overlay, entries, n, start, end);
    ghost var unsorted := rows;
    rows := SortByKey(rows);
    SameElements(rows, unsorted);
  }

  lemma {:induction false} AscendingDistinct<T>(rows: seq<(Key, T)>)
    requires Ascending(rows)
    ensures DistinctKeys(rows)
  {
    forall i, j | 0 <= i < j < |rows| ensures rows[i].0 != rows[j].0 { LessTotal(rows[i].0, rows[i].0); }
  }

  lemma {:induction false} MergedNone(rows: Rows, m: Contents, entries: seq<(Key, Option<Value>)>, start: Key,
                                      end: Option<Key>)
    requires IsRead(rows, m, start, end)
    ensures Merged(rows, m, entries, 0, start, end)
  {
    AscendingDistinct(rows);
  }

  lemma {:induction false} MergedUpsert(before: Rows, rows: Rows, m: Contents, entries: seq<(Key, Option<Value>)>,
                                        n: nat, start: Key, end: Option<Key>)
    requires Ascending(entries) && n < |entries| && Merged(before, m, entries, n, start, end) && DistinctKeys(rows)
    requires InRange(entries[n].0, start, end)
    requires forall row :: row in rows <==> if row.0 == entries[n].0 then entries[n].1 == Some(row.1) else row in before
    ensures Merged(rows, m, entries, n + 1, start, end)
  {
    hide InRange;
    AscendingDistinct(entries);
    var key := entries[n].0;
    forall k, v ensures (k, v) in rows <==> InRange(k, start, end) && MergedRow(m, entries, n + 1, k, v) {
      if k == key {
        assert entries[n].0 == k;
        assert (k, Some(v)) in entries <==> entries[n].1 == Some(v);
      } else {
        assert Seen(entries, n + 1, k) <==> Seen(entries, n, k);
      }
    }
  }

  // An entry below the range changes no row in it.
  lemma {:induction false} MergedBelow(rows: Rows, m: Contents, entries: seq<(Key, Option<Value>)>, n: nat,
                                       start: Key, end: Option<Key>)
    requires n < |entries| && Merged(rows, m, entries, n, start, end) && !AtLeast(entries[n].0, start)
    ensures Merged(rows, m, entries, n + 1, start, end)
  {
    forall k, v | InRange(k, start, end)
      ensures MergedRow(m, entries, n, k, v) <==> MergedRow(m, entries, n + 1, k, v)
    {
      assert Seen(entries, n + 1, k) <==> Seen(entries, n, k);
    }
  }

  // Once an entry is at or past the end, so is every later one.
  lemma {:induction false} MergedAll(rows: Rows, m: Contents, overlay: Pending, entries: seq<(Key, Option<Value>)>,
                                     n: nat, start: Key, end: Option<Key>)
    requires Ascending(entries) && n <= |entries| && Merged(rows, m, entries, n, start, end)
    requires forall k, v :: (k, v) in entries <==> k in overlay && overlay[k] == v
    requires n < |entries| ==> end.Some? && AtLeast(entries[n].0, end.value)
    ensures DistinctKeys(rows)
    ensures forall k, v :: (k, v) in rows <==>
      k in Through(m, overlay) && Through(m, overlay)[k] == v && InRange(k, start, end)
  {
    forall k | Seen(entries, n, k) ensures k in overlay {
      var i :| 0 <= i < n && entries[i].0 == k;
      assert (entries[i].0, entries[i].1) in entries;
    }
    forall k, v
      ensures (k, v) in rows <==> k in Through(m, overlay) && Through(m, overlay)[k] == v && InRange(k, start, end)
    {
      if k in overlay {
        assert (k, overlay[k]) in entries;
        var i :| 0 <= i < |entries| && entries[i] == (k, overlay[k]);
        if i >= n { PastEnd(entries, n, i, end.value); } else { assert Seen(entries, n, k); }
        assert (k, Some(v)) in entries <==> overlay[k] == Some(v);
      }
    }
  }

  lemma {:induction false} PastEnd(entries: seq<(Key, Option<Value>)>, n: nat, i: nat, end: Key)
    requires Ascending(entries) && n <= i < |entries| && AtLeast(entries[n].0, end)
    ensures AtLeast(entries[i].0, end)
  {
    if i > n && Less(entries[i].0, end) { LessTransitive(entries[n].0, entries[i].0, end); }
  }

  // ---------------------------------------------------------------------
  // A batch of operations
  // ---------------------------------------------------------------------

  // What one validated operation asked to read and then wrote.
  datatype Op = Op(asks: seq<ReadOp>, writes: seq<seq<BatchOp>>)
  datatype InputStep = ReadStep(op: ReadOp) | WriteStep(ops: seq<BatchOp>)

  function Flat(writes: seq<seq<BatchOp>>): seq<BatchOp> {
    if writes == [] then [] else Flat(writes[..|writes| - 1]) + writes[|writes| - 1]
  }

  /** All writes of the given operations, in order. */
  function WritesOf(ops: seq<Op>): seq<BatchOp> {
    if ops == [] then [] else WritesOf(ops[..|ops| - 1]) + Flat(ops[|ops| - 1].writes)
  }

  /** Each operation's reads, then its write steps. */
  function StepsOf(ops: seq<Op>): seq<InputStep> {
    if ops == [] then []
    else
      var op := ops[|ops| - 1];
      StepsOf(ops[..|ops| - 1])
        + seq(|op.asks|, j requires 0 <= j < |op.asks| => ReadStep(op.asks[j]))
        + seq(|op.writes|, j requires 0 <= j < |op.writes| => WriteStep(op.writes[j]))
  }

  lemma OpsNext(ops: seq<Op>, n: nat)
    requires n < |ops|
    ensures WritesOf(ops[..n + 1]) == WritesOf(ops[..n]) + Flat(ops[n].writes)
    ensures StepsOf(ops[..n + 1]) == StepsOf(ops[..n])
      + seq(|ops[n].asks|, j requires 0 <= j < |ops[n].asks| => ReadStep(ops[n].asks[j]))
      + seq(|ops[n].writes|, j requires 0 <= j < |ops[n].writes| => WriteStep(ops[n].writes[j]))
  {
    assert ops[..n + 1][..n] == ops[..n];
  }

  lemma NoOps()
    ensures WritesOf([]) == [] && StepsOf([]) == [] && NoteAll(map[], []) == map[]
  {
  }

  lemma {:induction false} NoteConcat(overlay: Pending, a: seq<BatchOp>, b: seq<BatchOp>)
    ensures NoteAll(overlay, a + b) == NoteAll(NoteAll(overlay, a), b)
    decreases |b|
  {
    if b == [] {
      assert a + b == a;
    } else {
      NoteConcat(overlay, a, b[..|b| - 1]);
      assert (a + b)[..|a + b| - 1] == a + b[..|b| - 1];
    }
  }

  class Extractor {
    const tree: Tree
    var overlay: Pending
    var steps: seq<InputStep>

    constructor (tree: Tree)
      ensures this.tree == tree && overlay == map[] && steps == []
    {
      this.tree, overlay, steps := tree, map[], [];
    }

    /** Overlay first, then the snapshot. */
    method Resolve(op: ReadOp) returns (rows: Rows)
      requires Ordered(tree)
      ensures Answers(rows, Through(Stored(tree), overlay), op)
    {
      match op
      case ReadKey(key) =>
        if key in overlay {
          rows := if overlay[key].Some? then [(key, overlay[key].value)] else [];
        } else {
          LookupStored(tree, key);
          var found := Lookup(tree, key);
          rows := if found.Some? then [(key, found.value)] else [];
        }
      case ReadPrefix(prefix) =>
        var end := PrefixSuccessor(prefix);
        CollectRangeReads(tree, prefix, end);
        rows := ApplyOverlayToRange(CollectRange(tree, prefix, end), overlay, prefix, end, Stored(tree));
        forall k ensures prefix <= k <==> InRange(k, prefix, end) { PrefixIsRange(prefix, k); }
        hide InRange;
      case ReadRange(start, end) =>
        CollectRangeReads(tree, start, Some(end));
        rows := ApplyOverlayToRange(CollectRange(tree, start, Some(end)), overlay, start, Some(end), Stored(tree));
    }

    method ResolveAll(asks: seq<ReadOp>) returns (answers: seq<Rows>)
      requires Ordered(tree)
      modifies `steps
      ensures |answers| == |asks|
      ensures forall j | 0 <= j < |asks| :: Answers(answers[j], Through(Stored(tree), overlay), asks[j])
      ensures steps == old(steps) + seq(|asks|, j requires 0 <= j < |asks| => ReadStep(asks[j]))
    {
      answers := [];
      hide Answers;
      for i := 0 to |asks|
        invariant |answers| == i
        invariant forall j | 0 <= j < i :: Answers(answers[j], Through(Stored(tree), overlay), asks[j])
        invariant steps == old(steps) + seq(i, j requires 0 <= j < i => ReadStep(asks[j]))
      {
        var rows := Resolve(asks[i]);
        answers := answers + [rows];
        steps := steps + [ReadStep(asks[i])];
      }
    }

    method NoteWrites(ops: seq<BatchOp>)
      modifies `overlay
      ensures overlay == NoteAll(old(overlay), ops)
    {
      for i := 0 to |ops|
        invariant overlay == NoteAll(old(overlay), ops[..i])
      {
        assert ops[..i + 1][..i] == ops[..i];
        match ops[i]
        case Put(key, value) => overlay := overlay[key := Some(value)];
        case Delete(key) => overlay := overlay[key := None];
      }
      assert ops[..|ops|] == ops;
    }

    method NoteSteps(writes: seq<seq<BatchOp>>)
      modifies `overlay, `steps
      ensures overlay == NoteAll(old(overlay), Flat(writes))
      ensures steps == old(steps) + seq(|writes|, j requires 0 <= j < |writes| => WriteStep(writes[j]))
    {
      for i := 0 to |writes|
        invariant overlay == NoteAll(old(overlay), Flat(writes[..i]))
        invariant steps == old(steps) + seq(i, j requires 0 <= j < i => WriteStep(writes[j]))
      {
        assert writes[..i + 1][..i] == writes[..i];
        NoteConcat(old(overlay), Flat(writes[..i]), writes[i]);
        NoteWrites(writes[i]);
        steps := steps + [WriteStep(writes[i])];
      }
      assert writes[..|writes|] == writes;
    }

    /** Every read of every operation gets the answer of the tree with all writes
        of the operations before it. */
    method Extract(ops: seq<Op>) returns (answers: seq<seq<Rows>>)
      requires Ordered(tree) && overlay == map[] && steps == []
      modifies this
      ensures steps == StepsOf(ops) && |answers| == |ops|
      ensures forall i | 0 <= i < |ops| :: AnswersOp(answers[i], WriteAll(Stored(tree), WritesOf(ops[..i])), ops[i])
    {
      hide Answers, Through, WriteAll, AnswersOp, StepsOf, WritesOf, NoteAll, Flat;
      answers := [];
      NoOps();
      for n := 0 to |ops|
        invariant |answers| == n && overlay == NoteAll(map[], WritesOf(ops[..n])) && steps == StepsOf(ops[..n])
        invariant forall i | 0 <= i < n :: AnswersOp(answers[i], WriteAll(Stored(tree), WritesOf(ops[..i])), ops[i])
      {
        ghost var m := WriteAll(Stored(tree), WritesOf(ops[..n]));
        ThroughIsWritten(Stored(tree), WritesOf(ops[..n]));
        var found := ResolveAll(ops[n].asks);
        AnswersOpIs(found, m, ops[n]);
        answers := answers + [found];
        OpsNext(ops, n);
        NoteConcat(map[], WritesOf(ops[..n]), Flat(ops[n].writes));
        NoteSteps(ops[n].writes);
      }
      assert ops[..|ops|] == ops;
    }
  }

  ghost predicate AnswersOp(answers: seq<Rows>, m: Contents, op: Op) {
    |answers| == |op.asks| && forall j | 0 <= j < |op.asks| :: Answers(answers[j], m, op.asks[j])
  }

  lemma AnswersOpIs(answers: seq<Rows>, m: Contents, op: Op)
    requires |answers| == |op.asks| && forall j | 0 <= j < |op.asks| :: Answers(answers[j], m, op.asks[j])
    ensures AnswersOp(answers, m, op)
  {
  }
}
