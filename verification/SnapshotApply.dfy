/**
 Merging a collected snapshot of physical columns and foreign keys into the dataset files
 (internal/catalog/syncapply.go). A file is a list of JSON objects; rows are updated in place through an index.
 */
module SnapshotApply {
  import opened Text

  /** A JSON value; only strings are ever read. */
  datatype Json = Str(s: string) | NotString(n: int)

  type Row = map<string, Json>

  datatype PhysicalColumn = PhysicalColumn(schema: string, table: string, column: string, ordinal: int,
                                           dataType: string, lengthPrecision: string,
                                           nullable: bool, isPK: bool, isFK: bool, comment: string)

  function Text8(r: Row, field: string): string {
    if field in r && r[field].Str? then r[field].s else ""
  }

  function Joined(a: string, b: string): string {
    a + ("." + b)
  }

  function Dotted(a: string, b: string, c: string): string {
    Upper(Joined(a, Joined(b, c)))
  }

  function RowKey(r: Row): string {
    Dotted(Text8(r, "schema_name"), Text8(r, "table_name"), Text8(r, "column_name"))
  }

  function ColumnKey(pc: PhysicalColumn): string {
    Dotted(pc.schema, pc.table, pc.column)
  }

  function YesNo(b: bool): string { if b then "Y" else "N" }

  // ---------------------------------------------------------------- one column

  /** The physical facts of a column, in the order in which they are written. */
  function Facts(pc: PhysicalColumn): seq<(string, string)> {
    [("data_type", Upper(pc.dataType)), ("length_precision", pc.lengthPrecision),
     ("null_constraint", YesNo(pc.nullable)), ("is_pk", YesNo(pc.isPK)), ("is_fk", YesNo(pc.isFK)),
     ("column_order", Itoa(pc.ordinal))]
  }

  const FACT_FIELDS: set<string> :=
    {"data_type", "length_precision", "null_constraint", "is_pk", "is_fk", "column_order"}

  function SetIfDiff(r: Row, field: string, value: string): Row {
    if Text8(r, field) == value then r else r[field := Str(value)]
  }

  function SetAll(r: Row, facts: seq<(string, string)>): Row {
    if facts == [] then r else SetIfDiff(SetAll(r, facts[..|facts| - 1]), facts[|facts| - 1].0, facts[|facts| - 1].1)
  }

  function WithFacts(r: Row, pc: PhysicalColumn): Row {
    SetAll(r, Facts(pc))
  }

  predicate HasFacts(r: Row, pc: PhysicalColumn) {
    forall k :: 0 <= k < |Facts(pc)| ==> Text8(r, Facts(pc)[k].0) == Facts(pc)[k].1
  }

  function NewRow(pc: PhysicalColumn, id: string): Row {
    map["id" := Str(id), "schema_name" := Str(pc.schema), "table_name" := Str(pc.table),
        "column_order" := Str(Itoa(pc.ordinal)), "column_name" := Str(pc.column),
        "data_type" := Str(Upper(pc.dataType)), "length_precision" := Str(pc.lengthPrecision),
        "null_constraint" := Str(YesNo(pc.nullable)), "is_pk" := Str(YesNo(pc.isPK)), "is_fk" := Str(YesNo(pc.isFK)),
        "description" := Str(pc.comment), "version" := NotString(1)]
  }

  predicate SameField(a: Row, b: Row, field: string) {
    (field in a <==> field in b) && (field in a ==> a[field] == b[field])
  }

  /** Writing facts touches nothing but the fact fields, and makes every fact read back. */
  lemma {:induction false} SetAllFrame(r: Row, facts: seq<(string, string)>, field: string)
    requires forall k :: 0 <= k < |facts| ==> facts[k].0 != field
    ensures SameField(SetAll(r, facts), r, field)
    decreases |facts|
  {
    if facts != [] { SetAllFrame(r, facts[..|facts| - 1], field); }
  }

  lemma {:induction false} SetAllReads(r: Row, facts: seq<(string, string)>)
    requires forall j, k :: 0 <= j < k < |facts| ==> facts[j].0 != facts[k].0
    ensures forall k :: 0 <= k < |facts| ==> Text8(SetAll(r, facts), facts[k].0) == facts[k].1
    decreases |facts|
  {
    if facts != [] {
      var front := facts[..|facts| - 1];
      SetAllReads(r, front);
      forall k | 0 <= k < |front|
        ensures Text8(SetAll(r, facts), facts[k].0) == facts[k].1
      {
        assert front[k] == facts[k] && facts[k].0 != facts[|facts| - 1].0;
      }
    }
  }

  lemma {:induction false} SetAllSame(r: Row, facts: seq<(string, string)>)
    requires forall k :: 0 <= k < |facts| ==> Text8(r, facts[k].0) == facts[k].1
    ensures SetAll(r, facts) == r
    decreases |facts|
  {
    if facts != [] {
      var front := facts[..|facts| - 1];
      assert forall k :: 0 <= k < |front| ==> front[k] == facts[k];
      SetAllSame(r, front);
    }
  }

  lemma {:induction false} FactFields(pc: PhysicalColumn)
    ensures forall k :: 0 <= k < |Facts(pc)| ==> Facts(pc)[k].0 in FACT_FIELDS
    ensures forall j, k :: 0 <= j < k < |Facts(pc)| ==> Facts(pc)[j].0 != Facts(pc)[k].0
  {
  }

  lemma {:induction false} WithFactsFrame(r: Row, pc: PhysicalColumn, field: string)
    requires field !in FACT_FIELDS
    ensures SameField(WithFacts(r, pc), r, field)
  {
    FactFields(pc);
    SetAllFrame(r, Facts(pc), field);
  }

  lemma {:induction false} WithFactsHasFacts(r: Row, pc: PhysicalColumn)
    ensures HasFacts(WithFacts(r, pc), pc)
    ensures HasFacts(r, pc) <==> WithFacts(r, pc) == r
    ensures RowKey(WithFacts(r, pc)) == RowKey(r)
  {
    FactFields(pc);
    SetAllReads(r, Facts(pc));
    if HasFacts(r, pc) { SetAllSame(r, Facts(pc)); }
    WithFactsFrame(r, pc, "schema_name");
    WithFactsFrame(r, pc, "table_name");
    WithFactsFrame(r, pc, "column_name");
  }

  lemma {:induction false} NewRowReads(pc: PhysicalColumn, id: string)
    ensures RowKey(NewRow(pc, id)) == ColumnKey(pc) && HasFacts(NewRow(pc, id), pc)
  {
    hide Dotted, Upper, Itoa, YesNo;
  }

  // ---------------------------------------------------------------- merging all columns

  /** The row that the index finds for a key: the last one filed under it, or -1. */
  function LastIndex(rows: seq<Row>, key: string): (i: int)
    ensures -1 <= i < |rows|
    ensures i >= 0 ==> RowKey(rows[i]) == key
    ensures forall j :: i < j < |rows| ==> RowKey(rows[j]) != key
  {
    if rows == [] then -1
    else if RowKey(rows[|rows| - 1]) == key then |rows| - 1
    else LastIndex(rows[..|rows| - 1], key)
  }

  /** A column is merged into the row of its key, or appended as a new row. */
  function MergeOne(rows: seq<Row>, pc: PhysicalColumn, ids: PhysicalColumn -> string): seq<Row> {
    var i := LastIndex(rows, ColumnKey(pc));
    if i >= 0 then rows[i := WithFacts(rows[i], pc)] else rows + [NewRow(pc, ids(pc))]
  }

  function Merge(rows: seq<Row>, cols: seq<PhysicalColumn>, ids: PhysicalColumn -> string): seq<Row> {
    if cols == [] then rows else MergeOne(Merge(rows, cols[..|cols| - 1], ids), cols[|cols| - 1], ids)
  }

  predicate Adds(rows: seq<Row>, pc: PhysicalColumn) {
    LastIndex(rows, ColumnKey(pc)) < 0
  }

  predicate Updates(rows: seq<Row>, pc: PhysicalColumn) {
    var i := LastIndex(rows, ColumnKey(pc));
    i >= 0 && !HasFacts(rows[i], pc)
  }

  function AddedBy(rows: seq<Row>, cols: seq<PhysicalColumn>, ids: PhysicalColumn -> string): nat {
    if cols == [] then 0 else
    AddedBy(rows, cols[..|cols| - 1], ids)
    + if Adds(Merge(rows, cols[..|cols| - 1], ids), cols[|cols| - 1]) then 1 else 0
  }

  function UpdatedBy(rows: seq<Row>, cols: seq<PhysicalColumn>, ids: PhysicalColumn -> string): nat {
    if cols == [] then 0 else
    UpdatedBy(rows, cols[..|cols| - 1], ids)
    + if Updates(Merge(rows, cols[..|cols| - 1], ids), cols[|cols| - 1]) then 1 else 0
  }

  // ---------------------------------------------------------------- retiring rows

  function CollectedSchemas(cols: seq<PhysicalColumn>): set<string> {
    set k | 0 <= k < |cols| :: Upper(cols[k].schema)
  }

  function CollectedKeys(cols: seq<PhysicalColumn>): set<string> {
    set k | 0 <= k < |cols| :: ColumnKey(cols[k])
  }

  /** The row's schema was collected but the row was not. */
  predicate Retired(cols: seq<PhysicalColumn>, r: Row) {
    Upper(Text8(r, "schema_name")) in CollectedSchemas(cols) && RowKey(r) !in CollectedKeys(cols)
  }

  function KeptRows(cols: seq<PhysicalColumn>, rows: seq<Row>, prune: bool): seq<Row> {
    if rows == [] then [] else
    var kept := KeptRows(cols, rows[..|rows| - 1], prune);
    if prune && Retired(cols, rows[|rows| - 1]) then kept else kept + [rows[|rows| - 1]]
  }

  function RetiredRows(cols: seq<PhysicalColumn>, rows: seq<Row>): seq<Row> {
    if rows == [] then [] else
    var retired := RetiredRows(cols, rows[..|rows| - 1]);
    if Retired(cols, rows[|rows| - 1]) then retired + [rows[|rows| - 1]] else retired
  }

  // ---------------------------------------------------------------- the operation

  datatype Report = Report(rows: seq<Row>, added: nat, updated: nat, retired: seq<Row>, written: bool)

  /** What an apply leaves in the file, what it counts, and whether it writes. */
  function Applied(rows: seq<Row>, cols: seq<PhysicalColumn>, ids: PhysicalColumn -> string, prune: bool): Report {
    var merged := Merge(rows, cols, ids);
    var added, updated, retired := AddedBy(rows, cols, ids), UpdatedBy(rows, cols, ids), RetiredRows(cols, merged);
    Report(KeptRows(cols, merged, prune), added, updated, retired,
           added > 0 || updated > 0 || (prune && retired != []))
  }

  ghost predicate Indexes(index: map<string, nat>, rows: seq<Row>) {
    forall key :: if key in index then LastIndex(rows, key) == index[key] else LastIndex(rows, key) < 0
  }

  lemma {:induction false} LastIndexSnoc(rows: seq<Row>, r: Row, key: string)
    ensures LastIndex(rows + [r], key) == if RowKey(r) == key then |rows| else LastIndex(rows, key)
  {
    assert (rows + [r])[..|rows|] == rows;
  }

  lemma {:induction false} LastIndexUnique(rows: seq<Row>, key: string, i: int)
    requires 0 <= i < |rows| && RowKey(rows[i]) == key
    requires forall j :: i < j < |rows| ==> RowKey(rows[j]) != key
    ensures LastIndex(rows, key) == i
  {
  }

  lemma {:induction false} LastIndexUpdate(rows: seq<Row>, i: nat, r: Row, key: string)
    requires i < |rows| && RowKey(r) == RowKey(rows[i])
    ensures LastIndex(rows[i := r], key) == LastIndex(rows, key)
  {
    var k := LastIndex(rows, key);
    if k >= 0 { LastIndexUnique(rows[i := r], key, k); }
  }

  /** readJSONFileAs and the index over its rows. */
  method BuildIndex(rows: seq<Row>) returns (index: map<string, nat>)
    ensures Indexes(index, rows)
  {
    index := map[];
    for i := 0 to |rows|
      invariant Indexes(index, rows[..i])
    {
      assert rows[..i + 1] == rows[..i] + [rows[i]];
      forall key
        ensures LastIndex(rows[..i + 1], key) == if RowKey(rows[i]) == key then i else LastIndex(rows[..i], key)
      {
        LastIndexSnoc(rows[..i], rows[i], key);
      }
      index := index[RowKey(rows[i]) := i];
    }
    assert rows[..|rows|] == rows;
  }

  /** setIfDiff, six times on one row. */
  method UpdateFacts(m0: Row, pc: PhysicalColumn) returns (m: Row, changed: bool)
    ensures m == WithFacts(m0, pc) && changed == !HasFacts(m0, pc)
  {
    hide Facts;
    var facts := Facts(pc);
    FactFields(pc);
    m, changed := m0, false;
    for k := 0 to |facts|
      invariant m == SetAll(m0, facts[..k])
      invariant changed <==> exists j :: 0 <= j < k && Text8(m0, facts[j].0) != facts[j].1
    {
      assert facts[..k + 1][..k] == facts[..k];
      assert forall j :: 0 <= j < k ==> facts[..k][j].0 != facts[k].0;
      SetAllFrame(m0, facts[..k], facts[k].0);
      assert Text8(m, facts[k].0) == Text8(m0, facts[k].0);
      if Text8(m, facts[k].0) != facts[k].1 {
        m := m[facts[k].0 := Str(facts[k].1)];
        changed := true;
      }
    }
    assert facts[..|facts|] == facts;
  }

  /** One column of the snapshot: update the row the index finds, or append a new one. */
  method MergeColumn(rows0: seq<Row>, index0: map<string, nat>, pc: PhysicalColumn, ids: PhysicalColumn -> string)
    returns (rows: seq<Row>, index: map<string, nat>, added: bool, updated: bool)
    requires Indexes(index0, rows0)
    ensures rows == MergeOne(rows0, pc, ids) && Indexes(index, rows)
    ensures added == Adds(rows0, pc) && updated == Updates(rows0, pc)
  {
    var key := ColumnKey(pc);
    rows, index, added, updated := rows0, index0, false, false;
    if key in index {
      var i: nat := index[key];
      var m;
      m, updated := UpdateFacts(rows[i], pc);
      WithFactsHasFacts(rows[i], pc);
      UpdateKeepsIndex(index, rows, i, m);
      rows := rows[i := m];
    } else {
      var row := NewRow(pc, ids(pc));
      NewRowReads(pc, ids(pc));
      AppendExtendsIndex(index, rows, row);
      index := index[key := |rows|];
      rows := rows + [row];
      added := true;
    }
  }

  method MergeColumns(rows0: seq<Row>, cols: seq<PhysicalColumn>, ids: PhysicalColumn -> string)
    returns (rows: seq<Row>, added: nat, updated: nat)
    ensures rows == Merge(rows0, cols, ids)
    ensures added == AddedBy(rows0, cols, ids) && updated == UpdatedBy(rows0, cols, ids)
  {
    rows, added, updated := rows0, 0, 0;
    var index: map<string, nat> := BuildIndex(rows);
    for c := 0 to |cols|
      invariant rows == Merge(rows0, cols[..c], ids) && Indexes(index, rows)
      invariant added == AddedBy(rows0, cols[..c], ids) && updated == UpdatedBy(rows0, cols[..c], ids)
    {
      assert cols[..c + 1][..c] == cols[..c];
      var adds, updates;
      rows, index, adds, updates := MergeColumn(rows, index, cols[c], ids);
      if adds {
        added := added + 1;
      }
      if updates {
        updated := updated + 1;
      }
    }
    assert cols[..|cols|] == cols;
  }

  lemma {:induction false} UpdateKeepsIndex(index: map<string, nat>, rows: seq<Row>, i: nat, r: Row)
    requires Indexes(index, rows) && i < |rows| && RowKey(r) == RowKey(rows[i])
    ensures Indexes(index, rows[i := r])
  {
    forall key ensures LastIndex(rows[i := r], key) == LastIndex(rows, key) { LastIndexUpdate(rows, i, r, key); }
  }

  lemma {:induction false} AppendExtendsIndex(index: map<string, nat>, rows: seq<Row>, r: Row)
    requires Indexes(index, rows)
    ensures Indexes(index[RowKey(r) := |rows|], rows + [r])
  {
    forall key ensures LastIndex(rows + [r], key) == if RowKey(r) == key then |rows| else LastIndex(rows, key) {
      LastIndexSnoc(rows, r, key);
    }
  }

  method SplitRows(cols: seq<PhysicalColumn>, rows: seq<Row>, prune: bool) returns (kept: seq<Row>, retired: seq<Row>)
    ensures kept == KeptRows(cols, rows, prune) && retired == RetiredRows(cols, rows)
  {
    kept, retired := [], [];
    var schemas, keys := CollectedSchemas(cols), CollectedKeys(cols);
    for i := 0 to |rows|
      invariant kept == KeptRows(cols, rows[..i], prune) && retired == RetiredRows(cols, rows[..i])
    {
      assert rows[..i + 1][..i] == rows[..i];
      var colAbsent := Upper(Text8(rows[i], "schema_name")) in schemas && RowKey(rows[i]) !in keys;
      if colAbsent {
        retired := retired + [rows[i]];
        if prune {
          continue;
        }
      }
      kept := kept + [rows[i]];
    }
    assert rows[..|rows|] == rows;
  }

  /** ApplyPhysicalSnapshot on the rows of the physical-model file. */
  method ApplyPhysicalSnapshot(rows0: seq<Row>, cols: seq<PhysicalColumn>, ids: PhysicalColumn -> string, prune: bool)
    returns (r: Report)
    ensures r == Applied(rows0, cols, ids, prune)
  {
    var rows, added, updated := MergeColumns(rows0, cols, ids);
    var kept, retired := SplitRows(cols, rows, prune);
    var written := added > 0 || updated > 0 || (prune && |retired| > 0);
    return Report(kept, added, updated, retired, written);
  }

  lemma {:induction false} NothingMerged(rows: seq<Row>, cols: seq<PhysicalColumn>, ids: PhysicalColumn -> string)
    requires AddedBy(rows, cols, ids) == 0 && UpdatedBy(rows, cols, ids) == 0
    ensures Merge(rows, cols, ids) == rows
    decreases |cols|
  {
    if cols != [] {
      NothingMerged(rows, cols[..|cols| - 1], ids);
      SettledIsNoop(rows, cols[|cols| - 1], ids);
    }
  }

  lemma {:induction false} NothingRetired(cols: seq<PhysicalColumn>, rows: seq<Row>, prune: bool)
    requires prune ==> RetiredRows(cols, rows) == []
    ensures KeptRows(cols, rows, prune) == rows
    decreases |rows|
  {
    if rows != [] { NothingRetired(cols, rows[..|rows| - 1], prune); }
  }

  // ---------------------------------------------------------------- what a merge leaves alone

  predicate DistinctKeys(cols: seq<PhysicalColumn>) {
    forall i, j :: 0 <= i < j < |cols| ==> ColumnKey(cols[i]) != ColumnKey(cols[j])
  }

  /** A row that takes the facts of every collected column with its key, in order. */
  function Rewritten(r: Row, cols: seq<PhysicalColumn>): Row {
    if cols == [] then r
    else var before := Rewritten(r, cols[..|cols| - 1]);
         if ColumnKey(cols[|cols| - 1]) == RowKey(r) then WithFacts(before, cols[|cols| - 1]) else before
  }

  /** What becomes of an existing row: the row the index finds for its key is rewritten, any other is untouched. */
  function RowAfter(rows: seq<Row>, i: nat, cols: seq<PhysicalColumn>): Row
    requires i < |rows|
  {
    if LastIndex(rows, RowKey(rows[i])) == i then Rewritten(rows[i], cols) else rows[i]
  }

  lemma {:induction false} RewrittenKey(r: Row, cols: seq<PhysicalColumn>)
    ensures RowKey(Rewritten(r, cols)) == RowKey(r)
    decreases |cols|
  {
    if cols != [] {
      RewrittenKey(r, cols[..|cols| - 1]);
      WithFactsHasFacts(Rewritten(r, cols[..|cols| - 1]), cols[|cols| - 1]);
    }
  }

  /** Merging one column finds every key where it was, and files a new key at the end. */
  lemma {:induction false} MergeOneKeys(rows: seq<Row>, pc: PhysicalColumn, ids: PhysicalColumn -> string, key: string)
    ensures LastIndex(MergeOne(rows, pc, ids), key) ==
            if key == ColumnKey(pc) && LastIndex(rows, key) < 0 then |rows| else LastIndex(rows, key)
  {
    var i := LastIndex(rows, ColumnKey(pc));
    if i >= 0 {
      WithFactsHasFacts(rows[i], pc);
      LastIndexUpdate(rows, i, WithFacts(rows[i], pc), key);
    } else {
      NewRowReads(pc, ids(pc));
      LastIndexSnoc(rows, NewRow(pc, ids(pc)), key);
    }
  }

  /** A key that is filed stays filed at the same place. */
  lemma {:induction false} MergeKeepsKeys(rows: seq<Row>, cols: seq<PhysicalColumn>, ids: PhysicalColumn -> string,
                                          key: string)
    requires LastIndex(rows, key) >= 0
    ensures LastIndex(Merge(rows, cols, ids), key) == LastIndex(rows, key)
    decreases |cols|
  {
    if cols != [] {
      MergeKeepsKeys(rows, cols[..|cols| - 1], ids, key);
      MergeOneKeys(Merge(rows, cols[..|cols| - 1], ids), cols[|cols| - 1], ids, key);
    }
  }

  lemma {:induction false} MergeSize(rows: seq<Row>, cols: seq<PhysicalColumn>, ids: PhysicalColumn -> string)
    ensures |Merge(rows, cols, ids)| == |rows| + AddedBy(rows, cols, ids)
    decreases |cols|
  {
    if cols != [] { MergeSize(rows, cols[..|cols| - 1], ids); }
  }

  /** Existing rows keep their places, and each is what RowAfter says; new rows come after them. */
  lemma {:induction false} MergeKeepsPlaces(rows: seq<Row>, cols: seq<PhysicalColumn>, ids: PhysicalColumn -> string,
                                            j: nat)
    requires j < |rows|
    ensures |Merge(rows, cols, ids)| == |rows| + AddedBy(rows, cols, ids)
    ensures Merge(rows, cols, ids)[j] == RowAfter(rows, j, cols)
    decreases |cols|
  {
    hide RowKey, ColumnKey, WithFacts;
    MergeSize(rows, cols, ids);
    if cols != [] {
      var front, key := cols[..|cols| - 1], RowKey(rows[j]);
      MergeKeepsPlaces(rows, front, ids, j);
      RewrittenKey(rows[j], front);
      assert LastIndex(rows, key) >= 0;
      MergeKeepsKeys(rows, front, ids, key);
    }
  }

  /** No merge ever writes a field of an existing row other than the six facts: business text survives. */
  lemma {:induction false} BusinessTextSurvives(rows: seq<Row>, cols: seq<PhysicalColumn>,
                                                ids: PhysicalColumn -> string, i: nat, field: string)
    requires i < |rows| && field !in FACT_FIELDS
    ensures i < |Merge(rows, cols, ids)| && SameField(Merge(rows, cols, ids)[i], rows[i], field)
  {
    MergeKeepsPlaces(rows, cols, ids, i);
    RewrittenFrame(rows[i], cols, field);
  }

  lemma {:induction false} RewrittenFrame(r: Row, cols: seq<PhysicalColumn>, field: string)
    requires field !in FACT_FIELDS
    ensures SameField(Rewritten(r, cols), r, field)
    decreases |cols|
  {
    if cols != [] {
      RewrittenFrame(r, cols[..|cols| - 1], field);
      WithFactsFrame(Rewritten(r, cols[..|cols| - 1]), cols[|cols| - 1], field);
    }
  }

  lemma {:induction false} NotReachedNotRewritten(r: Row, cols: seq<PhysicalColumn>)
    requires forall k :: 0 <= k < |cols| ==> ColumnKey(cols[k]) != RowKey(r)
    ensures Rewritten(r, cols) == r
    decreases |cols|
  {
    if cols != [] {
      var front := cols[..|cols| - 1];
      assert forall k :: 0 <= k < |front| ==> front[k] == cols[k];
      NotReachedNotRewritten(r, front);
    }
  }

  /** A row is as it was exactly when no collected column with its key reaches it with different facts. */
  lemma {:induction false} RowUntouched(rows: seq<Row>, cols: seq<PhysicalColumn>, i: nat)
    requires i < |rows| && DistinctKeys(cols)
    ensures RowAfter(rows, i, cols) == rows[i] <==>
            LastIndex(rows, RowKey(rows[i])) != i ||
            forall k :: 0 <= k < |cols| && ColumnKey(cols[k]) == RowKey(rows[i]) ==> HasFacts(rows[i], cols[k])
    decreases |cols|
  {
    hide HasFacts, WithFacts, RowKey, ColumnKey, LastIndex;
    if cols != [] {
      var front, pc := cols[..|cols| - 1], cols[|cols| - 1];
      assert forall k :: 0 <= k < |front| ==> front[k] == cols[k];
      RowUntouched(rows, front, i);
      if LastIndex(rows, RowKey(rows[i])) == i && ColumnKey(pc) == RowKey(rows[i]) {
        assert RowAfter(rows, i, front) == rows[i];
        WithFactsHasFacts(rows[i], pc);
        assert cols[|cols| - 1] == pc;
      }
    }
  }

  // ---------------------------------------------------------------- applying twice

  /** A column whose key is filed under a row that already has its facts: nothing left to do. */
  predicate Settled(rows: seq<Row>, pc: PhysicalColumn) {
    !Adds(rows, pc) && !Updates(rows, pc)
  }

  lemma {:induction false} SettledIsNoop(rows: seq<Row>, pc: PhysicalColumn, ids: PhysicalColumn -> string)
    requires Settled(rows, pc)
    ensures MergeOne(rows, pc, ids) == rows
  {
    var i := LastIndex(rows, ColumnKey(pc));
    WithFactsHasFacts(rows[i], pc);
  }

  lemma {:induction false} MergeOneSettles(rows: seq<Row>, pc: PhysicalColumn, ids: PhysicalColumn -> string)
    ensures Settled(MergeOne(rows, pc, ids), pc)
  {
    MergeOneKeys(rows, pc, ids, ColumnKey(pc));
    var i := LastIndex(rows, ColumnKey(pc));
    if i >= 0 { WithFactsHasFacts(rows[i], pc); } else { NewRowReads(pc, ids(pc)); }
  }

  /** Merging a column with another key does not disturb a settled one. */
  lemma {:induction false} OtherKeysStaySettled(rows: seq<Row>, pc: PhysicalColumn, other: PhysicalColumn,
                                                ids: PhysicalColumn -> string)
    requires Settled(rows, pc) && ColumnKey(pc) != ColumnKey(other)
    ensures Settled(MergeOne(rows, other, ids), pc)
  {
    MergeOneKeys(rows, other, ids, ColumnKey(pc));
  }

  /** Columns with one key state the same facts. */
  predicate KeysAgree(cols: seq<PhysicalColumn>) {
    forall i, j :: 0 <= i < j < |cols| && ColumnKey(cols[i]) == ColumnKey(cols[j]) ==> Facts(cols[i]) == Facts(cols[j])
  }

  lemma {:induction false} MergeSettles(rows: seq<Row>, cols: seq<PhysicalColumn>, ids: PhysicalColumn -> string,
                                        k: nat)
    requires KeysAgree(cols) && k < |cols|
    ensures Settled(Merge(rows, cols, ids), cols[k])
    decreases |cols|
  {
    hide Facts, ColumnKey, Settled;
    var front, last := cols[..|cols| - 1], cols[|cols| - 1];
    var before := Merge(rows, front, ids);
    if ColumnKey(cols[k]) == ColumnKey(last) {
      MergeOneSettles(before, last, ids);
      assert Facts(cols[k]) == Facts(last);
      SameFactsSettled(MergeOne(before, last, ids), cols[k], last);
    } else {
      FrontAgrees(cols);
      MergeSettles(rows, front, ids, k);
      OtherKeysStaySettled(before, cols[k], last, ids);
    }
  }

  lemma {:induction false} FrontAgrees(cols: seq<PhysicalColumn>)
    requires KeysAgree(cols) && cols != []
    ensures KeysAgree(cols[..|cols| - 1])
  {
    hide Facts, ColumnKey;
  }

  lemma {:induction false} SameFactsSettled(rows: seq<Row>, pc: PhysicalColumn, other: PhysicalColumn)
    requires Settled(rows, other) && ColumnKey(pc) == ColumnKey(other) && Facts(pc) == Facts(other)
    ensures Settled(rows, pc)
  {
  }

  lemma {:induction false} KeptSnoc(cols: seq<PhysicalColumn>, rows: seq<Row>, r: Row, prune: bool)
    ensures KeptRows(cols, rows + [r], prune) ==
            if prune && Retired(cols, r) then KeptRows(cols, rows, prune) else KeptRows(cols, rows, prune) + [r]
  {
    assert (rows + [r])[..|rows|] == rows;
  }

  /** Pruning keeps the row that the index finds for a collected key. */
  lemma {:induction false} KeptKeepsCollected(cols: seq<PhysicalColumn>, rows: seq<Row>, prune: bool, key: string)
    requires key in CollectedKeys(cols)
    ensures var i, j := LastIndex(rows, key), LastIndex(KeptRows(cols, rows, prune), key);
            (i >= 0 <==> j >= 0) && (i >= 0 ==> KeptRows(cols, rows, prune)[j] == rows[i])
    decreases |rows|
  {
    hide RowKey, CollectedKeys, CollectedSchemas;
    if rows != [] {
      var front, r := rows[..|rows| - 1], rows[|rows| - 1];
      KeptKeepsCollected(cols, front, prune, key);
      assert rows == front + [r];
      KeptSnoc(cols, front, r, prune);
      LastIndexSnoc(front, r, key);
      if !(prune && Retired(cols, r)) { LastIndexSnoc(KeptRows(cols, front, prune), r, key); }
    }
  }

  lemma {:induction false} SettledMergeIsNoop(rows: seq<Row>, cols: seq<PhysicalColumn>, ids: PhysicalColumn -> string)
    requires forall k :: 0 <= k < |cols| ==> Settled(rows, cols[k])
    ensures Merge(rows, cols, ids) == rows && AddedBy(rows, cols, ids) == 0 && UpdatedBy(rows, cols, ids) == 0
    decreases |cols|
  {
    if cols != [] {
      var front := cols[..|cols| - 1];
      assert forall k :: 0 <= k < |front| ==> front[k] == cols[k];
      SettledMergeIsNoop(rows, front, ids);
      SettledIsNoop(rows, cols[|cols| - 1], ids);
    }
  }

  lemma {:induction false} KeptTwice(cols: seq<PhysicalColumn>, rows: seq<Row>, prune: bool)
    ensures KeptRows(cols, KeptRows(cols, rows, prune), prune) == KeptRows(cols, rows, prune)
    decreases |rows|
  {
    if rows != [] {
      var front, r := rows[..|rows| - 1], rows[|rows| - 1];
      KeptTwice(cols, front, prune);
      if !(prune && Retired(cols, r)) { KeptSnoc(cols, KeptRows(cols, front, prune), r, prune); }
    }
  }

  // ---------------------------------------------------------------- rewriting twice

  function FactName(k: nat): string
    requires k < 6
  {
    ["data_type", "length_precision", "null_constraint", "is_pk", "is_fk", "column_order"][k]
  }

  lemma {:induction false} FactNamed(field: string) returns (k: nat)
    requires field in FACT_FIELDS
    ensures k < 6 && FactName(k) == field
  {
    k := if field == FactName(0) then 0 else if field == FactName(1) then 1 else if field == FactName(2) then 2
         else if field == FactName(3) then 3 else if field == FactName(4) then 4 else 5;
  }

  predicate IsText(r: Row, field: string) {
    field in r && r[field].Str?
  }

  lemma {:induction false} SetAllField(r: Row, facts: seq<(string, string)>, k: nat)
    requires k < |facts| && forall i, j :: 0 <= i < j < |facts| ==> facts[i].0 != facts[j].0
    ensures SameField(SetAll(r, facts), SetIfDiff(r, facts[k].0, facts[k].1), facts[k].0)
    decreases |facts|
  {
    var front, last := facts[..|facts| - 1], facts[|facts| - 1];
    if k < |front| {
      SetAllField(r, front, k);
      assert front[k] == facts[k] && facts[k].0 != last.0;
    } else {
      SetAllFrame(r, front, last.0);
    }
  }

  /** What writing the facts of a column does to one fact field. */
  lemma {:induction false} WithFactsField(r: Row, pc: PhysicalColumn, k: nat)
    requires k < 6
    ensures Facts(pc)[k].0 == FactName(k)
    ensures SameField(WithFacts(r, pc), SetIfDiff(r, FactName(k), Facts(pc)[k].1), FactName(k))
  {
    FactFields(pc);
    SetAllField(r, Facts(pc), k);
  }

  /** No column with the row's key states anything new in the field. */
  predicate Unmoved(r: Row, cols: seq<PhysicalColumn>, k: nat)
    requires k < 6
  {
    forall j :: 0 <= j < |cols| && ColumnKey(cols[j]) == RowKey(r) ==> Facts(cols[j])[k].1 == Text8(r, FactName(k))
  }

  /** A fact field that no column moves stays as it is; any other becomes a text. */
  lemma {:induction false} RewrittenField(r: Row, cols: seq<PhysicalColumn>, k: nat)
    requires k < 6
    ensures Unmoved(r, cols, k) ==> SameField(Rewritten(r, cols), r, FactName(k))
    ensures !Unmoved(r, cols, k) || IsText(r, FactName(k)) ==> IsText(Rewritten(r, cols), FactName(k))
    decreases |cols|
  {
    hide Facts, WithFacts, ColumnKey, RowKey, FactName;
    if cols != [] {
      var front, pc := cols[..|cols| - 1], cols[|cols| - 1];
      assert forall j :: 0 <= j < |front| ==> front[j] == cols[j];
      assert cols[|cols| - 1] == pc;
      RewrittenField(r, front, k);
      WithFactsField(Rewritten(r, front), pc, k);
    }
  }

  predicate Reaches(r: Row, cols: seq<PhysicalColumn>) {
    exists j :: 0 <= j < |cols| && ColumnKey(cols[j]) == RowKey(r)
  }

  /** A row that is reached forgets what its fact fields said before. */
  lemma {:induction false} RewrittenForgets(r: Row, q: Row, cols: seq<PhysicalColumn>, k: nat)
    requires k < 6 && RowKey(r) == RowKey(q) && Reaches(r, cols)
    ensures Text8(Rewritten(r, cols), FactName(k)) == Text8(Rewritten(q, cols), FactName(k))
    decreases |cols|
  {
    hide Facts, WithFacts, ColumnKey, RowKey, FactName;
    var front, pc := cols[..|cols| - 1], cols[|cols| - 1];
    WithFactsField(Rewritten(r, front), pc, k);
    WithFactsField(Rewritten(q, front), pc, k);
    if ColumnKey(pc) != RowKey(r) {
      var j :| 0 <= j < |cols| && ColumnKey(cols[j]) == RowKey(r);
      assert front[j] == cols[j];
      RewrittenForgets(r, q, front, k);
    }
  }

  lemma {:induction false} RewrittenTwiceField(r: Row, cols: seq<PhysicalColumn>, k: nat)
    requires k < 6
    ensures SameField(Rewritten(Rewritten(r, cols), cols), Rewritten(r, cols), FactName(k))
  {
    hide Facts, WithFacts, ColumnKey, RowKey, FactName, Rewritten;
    var once := Rewritten(r, cols);
    RewrittenKey(r, cols);
    RewrittenField(r, cols, k);
    RewrittenField(once, cols, k);
    if !Unmoved(r, cols, k) {
      RewrittenForgets(r, once, cols, k);
    }
  }

  /** Rewriting a row with the same columns once more changes nothing, whatever the columns say. */
  lemma {:induction false} RewrittenTwice(r: Row, cols: seq<PhysicalColumn>)
    ensures Rewritten(Rewritten(r, cols), cols) == Rewritten(r, cols)
  {
    var once := Rewritten(r, cols);
    var twice := Rewritten(once, cols);
    forall field ensures SameField(twice, once, field) {
      if field in FACT_FIELDS {
        var k := FactNamed(field);
        RewrittenTwiceField(r, cols, k);
      } else {
        RewrittenFrame(once, cols, field);
      }
    }
    SameFieldsSameRow(twice, once);
  }

  lemma {:induction false} SameFieldsSameRow(a: Row, b: Row)
    requires forall field :: SameField(a, b, field)
    ensures a == b
  {
    forall field ensures field in a <==> field in b { assert SameField(a, b, field); }
    assert a.Keys == b.Keys;
    forall field | field in a ensures a[field] == b[field] { assert SameField(a, b, field); }
  }

  /** The row that a merge files under a collected key is some row rewritten with all columns. */
  lemma {:induction false} FiledRowIsRewritten(rows: seq<Row>, cols: seq<PhysicalColumn>, ids: PhysicalColumn -> string,
                                               key: string) returns (r: Row)
    requires LastIndex(Merge(rows, cols, ids), key) >= 0
    ensures RowKey(r) == key && Merge(rows, cols, ids)[LastIndex(Merge(rows, cols, ids), key)] == Rewritten(r, cols)
    decreases |cols|
  {
    hide RowKey, ColumnKey, WithFacts, NewRow;
    if cols == [] {
      r := rows[LastIndex(rows, key)];
    } else {
      var front, pc := cols[..|cols| - 1], cols[|cols| - 1];
      var before := Merge(rows, front, ids);
      MergeOneKeys(before, pc, ids, key);
      if LastIndex(before, key) >= 0 {
        r := FiledRowIsRewritten(rows, front, ids, key);
      } else {
        r := NewRow(pc, ids(pc));
        NewRowReads(pc, ids(pc));
        WithFactsHasFacts(r, pc);
        forall k | 0 <= k < |front| ensures ColumnKey(front[k]) != key {
          if ColumnKey(front[k]) == key { CollectedKeysFiled(rows, front, ids, k); }
        }
        NotReachedNotRewritten(r, front);
      }
    }
  }

  lemma {:induction false} CollectedKeysFiled(rows: seq<Row>, cols: seq<PhysicalColumn>, ids: PhysicalColumn -> string,
                                              k: nat)
    requires k < |cols|
    ensures LastIndex(Merge(rows, cols, ids), ColumnKey(cols[k])) >= 0
    decreases |cols|
  {
    hide LastIndex, MergeOne, ColumnKey, RowKey;
    var front, pc := cols[..|cols| - 1], cols[|cols| - 1];
    MergeOneKeys(Merge(rows, front, ids), pc, ids, ColumnKey(cols[k]));
    if k < |front| { CollectedKeysFiled(rows, front, ids, k); }
  }

  lemma {:induction false} FiledKeysAddNothing(rows: seq<Row>, cols: seq<PhysicalColumn>, ids: PhysicalColumn -> string)
    requires forall k :: 0 <= k < |cols| ==> LastIndex(rows, ColumnKey(cols[k])) >= 0
    ensures AddedBy(rows, cols, ids) == 0
    decreases |cols|
  {
    if cols != [] {
      var front, pc := cols[..|cols| - 1], cols[|cols| - 1];
      assert forall k :: 0 <= k < |front| ==> front[k] == cols[k];
      FiledKeysAddNothing(rows, front, ids);
      MergeKeepsKeys(rows, front, ids, ColumnKey(pc));
    }
  }

  lemma {:induction false} AppliedRowStays(rows: seq<Row>, cols: seq<PhysicalColumn>, ids: PhysicalColumn -> string,
                                           prune: bool, j: nat)
    requires j < |Applied(rows, cols, ids, prune).rows|
    ensures RowAfter(Applied(rows, cols, ids, prune).rows, j, cols) == Applied(rows, cols, ids, prune).rows[j]
  {
    var merged, once := Merge(rows, cols, ids), Applied(rows, cols, ids, prune).rows;
    var key := RowKey(once[j]);
    if LastIndex(once, key) == j {
      if key in CollectedKeys(cols) {
        KeptKeepsCollected(cols, merged, prune, key);
        var r := FiledRowIsRewritten(rows, cols, ids, key);
        RewrittenTwice(r, cols);
      } else {
        assert forall k :: 0 <= k < |cols| ==> ColumnKey(cols[k]) in CollectedKeys(cols);
        NotReachedNotRewritten(once[j], cols);
      }
    }
  }

  /** Whatever the columns say, a second apply of one snapshot leaves the rows as the first left them. */
  lemma {:induction false} SecondApplySameRows(rows: seq<Row>, cols: seq<PhysicalColumn>, ids: PhysicalColumn -> string,
                                               prune: bool)
    ensures var once := Applied(rows, cols, ids, prune).rows;
            Applied(once, cols, ids, prune).rows == once && Applied(once, cols, ids, prune).added == 0
  {
    var merged, once := Merge(rows, cols, ids), Applied(rows, cols, ids, prune).rows;
    forall k | 0 <= k < |cols| ensures LastIndex(once, ColumnKey(cols[k])) >= 0 {
      CollectedKeysFiled(rows, cols, ids, k);
      KeptKeepsCollected(cols, merged, prune, ColumnKey(cols[k]));
    }
    FiledKeysAddNothing(once, cols, ids);
    MergeSize(once, cols, ids);
    forall j | 0 <= j < |once| ensures Merge(once, cols, ids)[j] == once[j] {
      MergeKeepsPlaces(once, cols, ids, j);
      AppliedRowStays(rows, cols, ids, prune, j);
    }
    assert Merge(once, cols, ids) == once;
    KeptTwice(cols, merged, prune);
  }

  // ---------------------------------------------------------------- idle applies and needless writes

  /** Applying the snapshot again adds nothing, updates nothing and leaves the rows as they are. */
  predicate Idempotent(rows: seq<Row>, cols: seq<PhysicalColumn>, ids: PhysicalColumn -> string, prune: bool) {
    var once := Applied(rows, cols, ids, prune).rows;
    var again := Applied(once, cols, ids, prune);
    again.added == 0 && again.updated == 0 && again.rows == once
  }

  lemma {:induction false} AgreeingKeysIdempotent(rows: seq<Row>, cols: seq<PhysicalColumn>,
                                                  ids: PhysicalColumn -> string, prune: bool)
    requires KeysAgree(cols)
    ensures Idempotent(rows, cols, ids, prune)
  {
    var merged := Merge(rows, cols, ids);
    var once := KeptRows(cols, merged, prune);
    forall k | 0 <= k < |cols| ensures Settled(once, cols[k]) {
      MergeSettles(rows, cols, ids, k);
      KeptKeepsCollected(cols, merged, prune, ColumnKey(cols[k]));
    }
    SettledMergeIsNoop(once, cols, ids);
    KeptTwice(cols, merged, prune);
  }

  lemma {:induction false} NothingToDo(rows: seq<Row>, cols: seq<PhysicalColumn>, ids: PhysicalColumn -> string, k: nat)
    requires AddedBy(rows, cols, ids) == 0 && UpdatedBy(rows, cols, ids) == 0 && k < |cols|
    ensures Settled(rows, cols[k])
    decreases |cols|
  {
    hide MergeOne, Adds, Updates;
    var front := cols[..|cols| - 1];
    NothingMerged(rows, front, ids);
    if k < |front| {
      NothingToDo(rows, front, ids, k);
    }
  }

  lemma {:induction false} SameFacts(r: Row, a: PhysicalColumn, b: PhysicalColumn)
    requires HasFacts(r, a) && HasFacts(r, b)
    ensures Facts(a) == Facts(b)
  {
    forall k | 0 <= k < 6 ensures Facts(a)[k] == Facts(b)[k] {
      assert Facts(a)[k].0 == Facts(b)[k].0;
    }
  }

  /** A second apply has nothing to do if and only if columns with one key agree; in particular for distinct keys. */
  lemma {:induction false} ApplyIsIdempotent(rows: seq<Row>, cols: seq<PhysicalColumn>, ids: PhysicalColumn -> string,
                                             prune: bool)
    ensures Idempotent(rows, cols, ids, prune) <==> KeysAgree(cols)
    ensures DistinctKeys(cols) ==> Idempotent(rows, cols, ids, prune)
  {
    if KeysAgree(cols) {
      AgreeingKeysIdempotent(rows, cols, ids, prune);
    }
    if Idempotent(rows, cols, ids, prune) {
      var once := Applied(rows, cols, ids, prune).rows;
      forall i, j | 0 <= i < j < |cols| && ColumnKey(cols[i]) == ColumnKey(cols[j])
        ensures Facts(cols[i]) == Facts(cols[j])
      {
        NothingToDo(once, cols, ids, i);
        NothingToDo(once, cols, ids, j);
        SameFacts(once[LastIndex(once, ColumnKey(cols[i]))], cols[i], cols[j]);
      }
    }
  }

  /** Two columns with one key and different facts take turns: the second apply updates again. */
  lemma {:induction false} DuplicateKeysFlipFlop(rows: seq<Row>, ids: PhysicalColumn -> string, prune: bool)
    ensures var a := PhysicalColumn("s", "t", "c", 1, "INT", "", false, false, false, "");
            !Idempotent(rows, [a, a.(ordinal := 2)], ids, prune)
  {
    var a := PhysicalColumn("s", "t", "c", 1, "INT", "", false, false, false, "");
    var b := a.(ordinal := 2);
    assert Facts(a)[5].1 == "1" && Facts(b)[5].1 == "2";
    assert ColumnKey([a, b][0]) == ColumnKey([a, b][1]) && !KeysAgree([a, b]);
    ApplyIsIdempotent(rows, [a, b], ids, prune);
  }

  lemma {:induction false} KeptAndRetired(cols: seq<PhysicalColumn>, rows: seq<Row>)
    ensures |KeptRows(cols, rows, true)| + |RetiredRows(cols, rows)| == |rows|
    decreases |rows|
  {
    if rows != [] { KeptAndRetired(cols, rows[..|rows| - 1]); }
  }

  predicate WritesOnlyChanges(rows: seq<Row>, cols: seq<PhysicalColumn>, ids: PhysicalColumn -> string, prune: bool) {
    Applied(rows, cols, ids, prune).written <==> Applied(rows, cols, ids, prune).rows != rows
  }

  /** A changed file is always written. */
  lemma {:induction false} ChangesAreWritten(rows: seq<Row>, cols: seq<PhysicalColumn>, ids: PhysicalColumn -> string,
                                             prune: bool)
    ensures Applied(rows, cols, ids, prune).rows != rows ==> Applied(rows, cols, ids, prune).written
  {
    if !Applied(rows, cols, ids, prune).written {
      NothingMerged(rows, cols, ids);
      NothingRetired(cols, Merge(rows, cols, ids), prune);
    }
  }

  lemma {:induction false} AgreeingKeysWriteOnlyChanges(rows: seq<Row>, cols: seq<PhysicalColumn>,
                                                        ids: PhysicalColumn -> string, prune: bool)
    requires KeysAgree(cols)
    ensures WritesOnlyChanges(rows, cols, ids, prune)
  {
    ChangesAreWritten(rows, cols, ids, prune);
    if Applied(rows, cols, ids, prune).rows == rows {
      AgreeingKeysIdempotent(rows, cols, ids, prune);
      NothingMerged(rows, cols, ids);
      KeptAndRetired(cols, rows);
    }
  }

  /** An unchanged file is never rewritten, whatever it holds, if and only if columns with one key agree. */
  lemma {:induction false} WritesOnlyChangesExactly(cols: seq<PhysicalColumn>, ids: PhysicalColumn -> string,
                                                    prune: bool)
    ensures (forall rows :: WritesOnlyChanges(rows, cols, ids, prune)) <==> KeysAgree(cols)
  {
    if KeysAgree(cols) {
      forall rows ensures WritesOnlyChanges(rows, cols, ids, prune) {
        AgreeingKeysWriteOnlyChanges(rows, cols, ids, prune);
      }
    } else {
      var once := Applied([], cols, ids, prune).rows;
      ApplyIsIdempotent([], cols, ids, prune);
      SecondApplySameRows([], cols, ids, prune);
      assert !WritesOnlyChanges(once, cols, ids, prune);
    }
  }

  lemma {:induction false} RestoredField(r: Row, a: PhysicalColumn, b: PhysicalColumn, k: nat)
    requires k < 6 && HasFacts(r, b) && IsText(r, FactName(k))
    ensures SameField(WithFacts(WithFacts(r, a), b), r, FactName(k))
  {
    WithFactsField(r, b, k);
    WithFactsField(r, a, k);
    WithFactsField(WithFacts(r, a), b, k);
  }

  /** Facts that another column of the same key overwrote come back. */
  lemma {:induction false} Restored(r: Row, a: PhysicalColumn, b: PhysicalColumn)
    requires HasFacts(r, b) && forall k :: 0 <= k < 6 ==> IsText(r, FactName(k))
    ensures WithFacts(WithFacts(r, a), b) == r
  {
    hide Facts, WithFacts, FactName, HasFacts;
    forall field ensures SameField(WithFacts(WithFacts(r, a), b), r, field) {
      if field in FACT_FIELDS {
        var k := FactNamed(field);
        RestoredField(r, a, b, k);
      } else {
        WithFactsFrame(r, a, field);
        WithFactsFrame(WithFacts(r, a), b, field);
      }
    }
    SameFieldsSameRow(WithFacts(WithFacts(r, a), b), r);
  }

  /** A row that two columns of its key rewrite and restore. */
  lemma {:induction false} BackAndForth(r: Row, a: PhysicalColumn, b: PhysicalColumn, ids: PhysicalColumn -> string)
    requires RowKey(r) == ColumnKey(a) == ColumnKey(b) && HasFacts(r, b) && !HasFacts(r, a)
    requires forall k :: 0 <= k < 6 ==> IsText(r, FactName(k))
    ensures Merge([r], [a, b], ids) == [r] && UpdatedBy([r], [a, b], ids) > 0
  {
    hide Facts, RowKey, ColumnKey, FactName;
    var r' := WithFacts(r, a);
    Restored(r, a, b);
    WithFactsHasFacts(r, a);
    LastIndexUnique([r], RowKey(r), 0);
    LastIndexUnique([r'], RowKey(r), 0);
    assert [a, b][..1] == [a] && [a][..0] == [];
    assert Merge([r], [], ids) == [r];
    assert Merge([r], [a], ids) == [r'];
    assert UpdatedBy([r], [a], ids) > 0;
  }

  /** Two columns of one key with ordinals 1 and 2, and a row that already has the second: the file is written
      although nothing changed. */
  lemma {:induction false} NeedlessWriteExample(id: string, ids: PhysicalColumn -> string, prune: bool)
    ensures var a := PhysicalColumn("s", "t", "c", 1, "INT", "", false, false, false, "");
            var b := a.(ordinal := 2);
            var r := Applied([NewRow(b, id)], [a, b], ids, prune);
            r.written && r.rows == [NewRow(b, id)]
  {
    var a := PhysicalColumn("s", "t", "c", 1, "INT", "", false, false, false, "");
    var b := a.(ordinal := 2);
    var row := NewRow(b, id);
    NewRowReads(b, id);
    assert ColumnKey(a) == ColumnKey(b);
    assert !HasFacts(row, a) by { assert Facts(a)[5] == ("column_order", "1") && Text8(row, "column_order") == "2"; }
    forall k | 0 <= k < 6 ensures IsText(row, FactName(k)) {}
    hide Facts, NewRow, ColumnKey, RowKey, FactName;
    BackAndForth(row, a, b, ids);
    assert [a, b][0] == a;
    CollectedIsKept([a, b], row, prune);
  }

  lemma {:induction false} CollectedIsKept(cols: seq<PhysicalColumn>, r: Row, prune: bool)
    requires RowKey(r) in CollectedKeys(cols)
    ensures KeptRows(cols, [r], prune) == [r]
  {
    assert [r][..0] == [];
  }

  // ---------------------------------------------------------------- pruning

  /** Without pruning every row is kept. */
  lemma {:induction false} KeepsAllWithoutPrune(cols: seq<PhysicalColumn>, rows: seq<Row>)
    ensures KeptRows(cols, rows, false) == rows
    decreases |rows|
  {
    if rows != [] { KeepsAllWithoutPrune(cols, rows[..|rows| - 1]); }
  }

  /** With pruning, exactly the rows of uncollected schemas and the collected rows are kept, in order. */
  lemma {:induction false} PruneKeepsExactly(cols: seq<PhysicalColumn>, rows: seq<Row>, r: Row)
    ensures multiset(KeptRows(cols, rows, true))[r] ==
            if Upper(Text8(r, "schema_name")) !in CollectedSchemas(cols) || RowKey(r) in CollectedKeys(cols)
            then multiset(rows)[r] else 0
    decreases |rows|
  {
    if rows != [] {
      PruneKeepsExactly(cols, rows[..|rows| - 1], r);
      assert rows == rows[..|rows| - 1] + [rows[|rows| - 1]];
    }
  }

  // ---------------------------------------------------------------- schemas that were not collected

  /** The names in a key, and where its dots are: between the names, and nowhere else unless a name has one. */
  lemma {:induction false} KeyDots(a: string, b: string, c: string)
    ensures var key := Dotted(a, b, c);
            && |key| == |a| + |b| + |c| + 2 && key[..|a|] == Upper(a)
            && key[|a|] == '.' && key[|a| + 1 + |b|] == '.'
            && ('.' !in a ==> forall i :: 0 <= i < |a| ==> key[i] != '.')
            && ('.' !in b ==> forall i :: |a| < i <= |a| + |b| ==> key[i] != '.')
            && ('.' !in c ==> forall i :: |a| + |b| + 1 < i < |key| ==> key[i] != '.')
  {
    var s, key := a + ("." + (b + ("." + c))), Dotted(a, b, c);
    assert key[..|a|] == Upper(a);
    forall i | |a| < i <= |a| + |b| ensures s[i] == b[i - |a| - 1] {}
    forall i | |a| + |b| + 1 < i < |s| ensures s[i] == c[i - |a| - |b| - 2] {}
  }

  /** No name of the row has a dot. */
  predicate NoDots(r: Row) {
    '.' !in Text8(r, "schema_name") && '.' !in Text8(r, "table_name") && '.' !in Text8(r, "column_name")
  }

  /** Two keys are the same only for one schema, if the one's names have no dots or neither schema has one. */
  lemma {:induction false} SameKeySameSchema(r: Row, pc: PhysicalColumn)
    requires RowKey(r) == ColumnKey(pc)
    requires NoDots(r) || ('.' !in Text8(r, "schema_name") && '.' !in pc.schema)
    ensures Upper(pc.schema) == Upper(Text8(r, "schema_name"))
  {
    KeyDots(Text8(r, "schema_name"), Text8(r, "table_name"), Text8(r, "column_name"));
    KeyDots(pc.schema, pc.table, pc.column);
    assert |pc.schema| == |Text8(r, "schema_name")|;
  }

  /** A row of an uncollected schema is never changed when its names have no dots, or when no schema name has. */
  lemma {:induction false} UncollectedSchemaUntouched(rows: seq<Row>, cols: seq<PhysicalColumn>,
                                                      ids: PhysicalColumn -> string, i: nat)
    requires i < |rows| && Upper(Text8(rows[i], "schema_name")) !in CollectedSchemas(cols)
    requires NoDots(rows[i]) ||
             ('.' !in Text8(rows[i], "schema_name") && forall k :: 0 <= k < |cols| ==> '.' !in cols[k].schema)
    ensures i < |Merge(rows, cols, ids)| && Merge(rows, cols, ids)[i] == rows[i]
  {
    forall k | 0 <= k < |cols| ensures ColumnKey(cols[k]) != RowKey(rows[i]) {
      assert Upper(cols[k].schema) in CollectedSchemas(cols);
      if ColumnKey(cols[k]) == RowKey(rows[i]) { SameKeySameSchema(rows[i], cols[k]); }
    }
    NotReachedNotRewritten(rows[i], cols);
    MergeKeepsPlaces(rows, cols, ids, i);
  }

  lemma {:induction false} JoinedGroups(a: string, b: string, c: string)
    ensures Joined(Joined(a, b), c) == Joined(a, Joined(b, c))
  {
  }

  lemma {:induction false} CutAtDot(s: string) returns (x: string, y: string)
    requires '.' in s
    ensures s == Joined(x, y) && |x| < |s|
  {
    var p :| 0 <= p < |s| && s[p] == '.';
    x, y := s[..p], s[p + 1..];
  }

  /** The same key cut at another dot: a column of another schema. */
  lemma {:induction false} OtherCut(a: string, b: string, c: string) returns (x: string, y: string, z: string)
    requires '.' in a || '.' in b || '.' in c
    ensures Joined(x, Joined(y, z)) == Joined(a, Joined(b, c)) && |x| != |a|
  {
    hide Joined;
    JoinedLonger(a, b);
    if '.' in a {
      var end;
      x, end := CutAtDot(a);
      y, z := Joined(end, b), c;
      JoinedGroups(end, b, c);
      JoinedGroups(x, end, Joined(b, c));
    } else if '.' in b {
      var start;
      start, y := CutAtDot(b);
      x, z := Joined(a, start), c;
      JoinedLonger(a, start);
      JoinedGroups(start, y, c);
      JoinedGroups(a, start, Joined(y, c));
    } else {
      y, z := CutAtDot(c);
      x := Joined(a, b);
      JoinedGroups(a, b, c);
    }
  }

  lemma {:induction false} JoinedLonger(a: string, b: string)
    ensures |Joined(a, b)| > |a|
  {
  }

  /** A row with a dot in a name is changed by a column of another schema. */
  lemma {:induction false} DottedRowChanged(r: Row, ids: PhysicalColumn -> string) returns (pc: PhysicalColumn)
    requires !NoDots(r)
    ensures Upper(Text8(r, "schema_name")) !in CollectedSchemas([pc])
    ensures Merge([r], [pc], ids) == [WithFacts(r, pc)] && WithFacts(r, pc) != r
  {
    var x, y, z := OtherCut(Text8(r, "schema_name"), Text8(r, "table_name"), Text8(r, "column_name"));
    var ordinal := if Text8(r, "column_order") == "1" then 2 else 1;
    pc := PhysicalColumn(x, y, z, ordinal, "INT", "", false, false, false, "");
    assert |Upper(x)| == |x| && |Upper(Text8(r, "schema_name"))| == |Text8(r, "schema_name")|;
    assert Itoa(1) == "1" && Itoa(2) == "2";
    assert Facts(pc)[5] == ("column_order", Itoa(ordinal));
    assert !HasFacts(r, pc);
    ReachedAndChanged(r, pc, ids);
  }

  lemma {:induction false} ReachedAndChanged(r: Row, pc: PhysicalColumn, ids: PhysicalColumn -> string)
    requires RowKey(r) == ColumnKey(pc) && !HasFacts(r, pc)
    ensures Merge([r], [pc], ids) == [WithFacts(r, pc)] && WithFacts(r, pc) != r
  {
    hide RowKey, ColumnKey, HasFacts, WithFacts;
    LastIndexUnique([r], RowKey(r), 0);
    WithFactsHasFacts(r, pc);
    assert [pc][..0] == [];
    assert Merge([r], [pc][..0], ids) == [r];
  }

  ghost predicate SafeFromOtherSchemas(r: Row, ids: PhysicalColumn -> string) {
    forall cols | Upper(Text8(r, "schema_name")) !in CollectedSchemas(cols) ::
      |Merge([r], cols, ids)| > 0 && Merge([r], cols, ids)[0] == r
  }

  /** Snapshots of other schemas leave a row alone if and only if none of its names has a dot. */
  lemma {:induction false} SafeFromOtherSchemasExactly(r: Row, ids: PhysicalColumn -> string)
    ensures SafeFromOtherSchemas(r, ids) <==> NoDots(r)
  {
    if NoDots(r) {
      forall cols | Upper(Text8(r, "schema_name")) !in CollectedSchemas(cols)
        ensures |Merge([r], cols, ids)| > 0 && Merge([r], cols, ids)[0] == r
      {
        UncollectedSchemaUntouched([r], cols, ids, 0);
      }
    } else {
      var pc := DottedRowChanged(r, ids);
    }
  }

  // ---------------------------------------------------------------- relations

  datatype Relation = Relation(baseSchema: string, baseTable: string, baseColumn: string,
                               refSchema: string, refTable: string, refColumn: string)

  function RelationKey(a: string, b: string, c: string, d: string, e: string, f: string): string {
    Upper(a + "." + b + "." + c + ">" + d + "." + e + "." + f)
  }

  function KeyOf(r: Relation): string {
    RelationKey(r.baseSchema, r.baseTable, r.baseColumn, r.refSchema, r.refTable, r.refColumn)
  }

  function RowRelationKey(m: Row): string {
    RelationKey(Text8(m, "base_schema"), Text8(m, "base_table"), Text8(m, "base_column"),
                Text8(m, "reference_schema"), Text8(m, "reference_table"), Text8(m, "reference_column"))
  }

  function RelationRow(r: Relation): Row {
    map["base_schema" := Str(r.baseSchema), "base_table" := Str(r.baseTable), "base_column" := Str(r.baseColumn),
        "reference_schema" := Str(r.refSchema), "reference_table" := Str(r.refTable),
        "reference_column" := Str(r.refColumn),
        "cardinality" := Str("N:1"), "join_type" := Str("INNER"), "provision_type" := Str("FK")]
  }

  predicate Complete(r: Relation) {
    r.baseTable != "" && r.refTable != "" && r.baseColumn != "" && r.refColumn != ""
  }

  function RelationKeys(list: seq<Row>): set<string> {
    set k | 0 <= k < |list| :: RowRelationKey(list[k])
  }

  function Upserted(list: seq<Row>, rels: seq<Relation>): seq<Row> {
    if rels == [] then list else
    var before, r := Upserted(list, rels[..|rels| - 1]), rels[|rels| - 1];
    if Complete(r) && KeyOf(r) !in RelationKeys(before) then before + [RelationRow(r)] else before
  }

  lemma {:induction false} RelationKeysSnoc(list: seq<Row>, m: Row)
    ensures RelationKeys(list + [m]) == RelationKeys(list) + {RowRelationKey(m)}
  {
    assert (list + [m])[|list|] == m;
    assert forall k :: 0 <= k < |list| ==> (list + [m])[k] == list[k];
  }

  lemma {:induction false} RelationRowKey(r: Relation)
    ensures RowRelationKey(RelationRow(r)) == KeyOf(r)
  {
  }

  method UpsertRelations(list0: seq<Row>, rels: seq<Relation>) returns (list: seq<Row>, added: nat)
    ensures list == Upserted(list0, rels) && added == |list| - |list0|
  {
    list, added := list0, 0;
    var seen: set<string> := {};
    for i := 0 to |list0|
      invariant seen == RelationKeys(list0[..i])
    {
      assert list0[..i + 1] == list0[..i] + [list0[i]];
      RelationKeysSnoc(list0[..i], list0[i]);
      seen := seen + {RowRelationKey(list0[i])};
    }
    assert list0[..|list0|] == list0;
    for i := 0 to |rels|
      invariant list == Upserted(list0, rels[..i]) && added == |list| - |list0| && seen == RelationKeys(list)
    {
      assert rels[..i + 1][..i] == rels[..i];
      if !Complete(rels[i]) {
        continue;
      }
      if KeyOf(rels[i]) in seen {
        continue;
      }
      RelationKeysSnoc(list, RelationRow(rels[i]));
      RelationRowKey(rels[i]);
      seen := seen + {KeyOf(rels[i])};
      list := list + [RelationRow(rels[i])];
      added := added + 1;
    }
    assert rels[..|rels|] == rels;
  }

  /** The keys of the relations that name both tables and both columns. */
  function CompleteKeys(rels: seq<Relation>): set<string> {
    if rels == [] then {} else
    CompleteKeys(rels[..|rels| - 1]) + if Complete(rels[|rels| - 1]) then {KeyOf(rels[|rels| - 1])} else {}
  }

  lemma {:induction false} CompleteKeyIn(rels: seq<Relation>, k: nat)
    requires k < |rels| && Complete(rels[k])
    ensures KeyOf(rels[k]) in CompleteKeys(rels)
    decreases |rels|
  {
    if k < |rels| - 1 { CompleteKeyIn(rels[..|rels| - 1], k); }
  }

  predicate NewKeysOnce(list: seq<Row>, all: seq<Row>) {
    forall i, j :: 0 <= i < j < |all| && j >= |list| ==> RowRelationKey(all[i]) != RowRelationKey(all[j])
  }

  /** Existing relations stay first and unchanged, and every complete relation is filed. */
  lemma {:induction false} UpsertFiles(list: seq<Row>, rels: seq<Relation>)
    ensures list <= Upserted(list, rels)
    ensures RelationKeys(Upserted(list, rels)) == RelationKeys(list) + CompleteKeys(rels)
    decreases |rels|
  {
    if rels != [] {
      var front, r := rels[..|rels| - 1], rels[|rels| - 1];
      UpsertFiles(list, front);
      RelationKeysSnoc(Upserted(list, front), RelationRow(r));
      RelationRowKey(r);
    }
  }

  /** A relation that was added has a key that no other row has. */
  lemma {:induction false} UpsertOnce(list: seq<Row>, rels: seq<Relation>)
    ensures NewKeysOnce(list, Upserted(list, rels))
    decreases |rels|
  {
    if rels != [] {
      var front, r := rels[..|rels| - 1], rels[|rels| - 1];
      UpsertOnce(list, front);
      RelationRowKey(r);
      if Complete(r) && KeyOf(r) !in RelationKeys(Upserted(list, front)) {
        OnceMore(list, Upserted(list, front), RelationRow(r));
      }
    }
  }

  lemma {:induction false} OnceMore(list: seq<Row>, all: seq<Row>, m: Row)
    requires NewKeysOnce(list, all) && RowRelationKey(m) !in RelationKeys(all)
    ensures NewKeysOnce(list, all + [m])
  {
    assert forall i :: 0 <= i < |all| ==> (all + [m])[i] == all[i] && RowRelationKey(all[i]) in RelationKeys(all);
  }

  /** Loading the same relations again adds none. */
  lemma {:induction false} UpsertIsIdempotent(list: seq<Row>, rels: seq<Relation>, again: seq<Relation>)
    requires forall k :: 0 <= k < |again| && Complete(again[k]) ==>
               KeyOf(again[k]) in RelationKeys(Upserted(list, rels))
    ensures Upserted(Upserted(list, rels), again) == Upserted(list, rels)
    decreases |again|
  {
    if again != [] {
      var front := again[..|again| - 1];
      assert forall k :: 0 <= k < |front| ==> front[k] == again[k];
      UpsertIsIdempotent(list, rels, front);
    }
  }

  lemma {:induction false} SecondUpsertAddsNothing(list: seq<Row>, rels: seq<Relation>)
    ensures Upserted(Upserted(list, rels), rels) == Upserted(list, rels)
  {
    UpsertFiles(list, rels);
    forall k | 0 <= k < |rels| && Complete(rels[k]) ensures KeyOf(rels[k]) in RelationKeys(Upserted(list, rels)) {
      CompleteKeyIn(rels, k);
    }
    UpsertIsIdempotent(list, rels, rels);
  }
}
