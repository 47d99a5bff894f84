/** Every statement, and hence every run, keeps the store consistent. */
module Reachable {
  import opened Data
  import opened KeyOrder
  import opened Store
  import opened Validate
  import opened Dml
  import opened Integrity

  // ----- what `fetch` returns -----

  lemma {:induction false} FetchFrom(
      db: Database, selection: Option<Condition>, rows: seq<(Key, Row)>, i: nat)
    returns (j: nat)
    requires i < |Fetch(db, selection, rows)|
    ensures j < |rows| && Fetch(db, selection, rows)[i] == rows[j] && Selects(db, selection, rows[j].1) == Ok(true)
    ensures i == |Fetch(db, selection, rows[..j])|
  {
    var n := |rows| - 1;
    if i < |Fetch(db, selection, rows[..n])| {
      j := FetchFrom(db, selection, rows[..n], i);
      assert rows[..n][..j] == rows[..j];
    } else {
      j := n;
    }
  }

  lemma {:induction false} FetchGrows(db: Database, selection: Option<Condition>, rows: seq<(Key, Row)>, m: nat, n: nat)
    requires m <= n <= |rows|
    ensures Fetch(db, selection, rows[..m]) <= Fetch(db, selection, rows[..n])
  {
    if m < n {
      FetchGrows(db, selection, rows, m, n - 1);
      assert rows[..n][..n - 1] == rows[..n - 1];
    }
  }

  /** `fetch` returns every selected row. */
  lemma FetchComplete(db: Database, selection: Option<Condition>, rows: seq<(Key, Row)>, j: nat) returns (i: nat)
    requires j < |rows| && Selects(db, selection, rows[j].1) == Ok(true)
    ensures i < |Fetch(db, selection, rows)| && Fetch(db, selection, rows)[i] == rows[j]
  {
    i := |Fetch(db, selection, rows[..j])|;
    assert rows[..j + 1][..j] == rows[..j];
    assert Fetch(db, selection, rows[..j + 1])[i] == rows[j];
    FetchGrows(db, selection, rows, j + 1, |rows|);
    assert rows[..|rows|] == rows;
  }

  /** Fetched rows are stored, selected, and under pairwise different keys. */
  lemma FetchedFromTable(db: Database, selection: Option<Condition>, rows: map<Key, Row>, i: nat)
    requires i < |Fetch(db, selection, Scan(rows))|
    ensures var f := Fetch(db, selection, Scan(rows))[i];
            f.0 in rows && rows[f.0] == f.1 && Selects(db, selection, f.1) == Ok(true)
  {
    hide Scan;
    var j := FetchFrom(db, selection, Scan(rows), i);
    ScanEntry(rows, j);
  }

  lemma FetchedKeysDiffer(db: Database, selection: Option<Condition>, rows: map<Key, Row>, i: nat, i': nat)
    requires i < i' < |Fetch(db, selection, Scan(rows))|
    ensures Fetch(db, selection, Scan(rows))[i].0 != Fetch(db, selection, Scan(rows))[i'].0
  {
    hide Scan, Cmp;
    var s := Scan(rows);
    ScanListsRows(rows);
    var j := FetchFrom(db, selection, s, i);
    var j' := FetchFrom(db, selection, s, i');
    if j' <= j {
      FetchGrows(db, selection, s, j', j);
      assert false;
    }
  }

  // ----- rows that UPDATE accepts are safe -----

  lemma {:induction false} NewValueUnassigned(
      db: Database, columns: seq<ColumnDef>, assignments: seq<Assignment>, row: Row, name: string, v: Value)
    requires forall j | 0 <= j < |assignments| :: assignments[j].id != name
    ensures NewValue(db, columns, assignments, row, name, v) == v
  {
    if assignments != [] {
      NewValueUnassigned(db, columns, assignments[1..], row, name, v);
    }
  }

  lemma {:induction false} NewValueAssigned(
      db: Database, columns: seq<ColumnDef>, assignments: seq<Assignment>, row: Row, name: string, v: Value)
    returns (j: nat)
    requires exists j | 0 <= j < |assignments| :: assignments[j].id == name
    requires forall j | 0 <= j < |assignments| :: AssignedValue(db, columns, assignments[j], row).Ok?
    ensures j < |assignments| && assignments[j].id == name
    ensures AssignedValue(db, columns, assignments[j], row) == Ok(NewValue(db, columns, assignments, row, name, v))
  {
    if assignments[0].id == name {
      j := 0;
    } else {
      var k :| 0 <= k < |assignments| && assignments[k].id == name;
      assert assignments[1..][k - 1].id == name;
      var i := NewValueAssigned(db, columns, assignments[1..], row, name, v);
      j := i + 1;
    }
  }

  predicate Assigned(columns: seq<ColumnDef>, assignments: seq<Assignment>, c: nat)
    requires c < |columns|
  {
    exists j | 0 <= j < |assignments| :: assignments[j].id == columns[c].name
  }

  lemma IndexOfColumn(columns: seq<ColumnDef>, c: nat)
    requires ColumnsOk(columns) && c < |columns|
    ensures ColumnIndex(columns, columns[c].name) == Some(c)
  {
  }

  /** The updated row differs from the old one in assigned columns only, whose new values fit. */
  lemma UpdatedColumn(db: Database, schema: Schema, assignments: seq<Assignment>, row: Row, c: nat)
    requires ColumnsOk(schema.columns) && RowAccepts(db, schema, assignments, row)
    requires c < |row| && c < |schema.columns|
    ensures var updated := UpdatedRow(db, schema.columns, assignments, row)[c];
            if Assigned(schema.columns, assignments, c)
            then Fits(updated, schema.columns[c].dataType, schema.columns[c].nullable) &&
                 forall fk | fk in schema.foreignKeys && fk.referencingColumn == schema.columns[c].name ::
                   Refers(db, fk, updated)
            else updated == row[c]
  {
    hide Fits, Refers;
    var columns := schema.columns;
    if Assigned(columns, assignments, c) {
      forall j | 0 <= j < |assignments| ensures AssignedValue(db, columns, assignments[j], row).Ok? {
        assert AssignmentAccepts(db, schema, assignments[j], row);
      }
      var j := NewValueAssigned(db, columns, assignments, row, columns[c].name, row[c]);
      assert AssignmentAccepts(db, schema, assignments[j], row);
      IndexOfColumn(columns, c);
    } else {
      NewValueUnassigned(db, columns, assignments, row, columns[c].name, row[c]);
    }
  }

  /** Everything UPDATE established before it writes. */
  ghost predicate UpdateAdmitted(db: Database, t: string, assignments: seq<Assignment>, fetched: seq<(Key, Row)>)
    requires t in db.tables
  {
    var table := db.tables[t];
    var columns := table.schema.columns;
    && Assignable(columns, assignments)
    && (forall i | 0 <= i < |fetched| :: fetched[i].0 in table.rows && table.rows[fetched[i].0] == fetched[i].1)
    && (forall i | 0 <= i < |fetched| :: RowAccepts(db, table.schema, assignments, fetched[i].1))
    && ScanAccepts(table, UniqueColumns(columns, SpecifiedColumns(Ids(assignments))),
                   RowsOnly(UpdatedRows(db, columns, assignments, fetched)))
  }

  lemma AssignedUniqueColumnIsChecked(columns: seq<ColumnDef>, assignments: seq<Assignment>, c: nat)
    requires IsUnique(columns, c) && Assigned(columns, assignments, c)
    ensures c in UniqueColumns(columns, SpecifiedColumns(Ids(assignments)))
  {
    var j :| 0 <= j < |assignments| && assignments[j].id == columns[c].name;
    assert Ids(assignments)[j] == columns[c].name;
  }

  lemma PrimaryKeyIsNotAssigned(columns: seq<ColumnDef>, assignments: seq<Assignment>)
    requires Assignable(columns, assignments) && PrimaryKeyIndex(columns).Some?
    ensures !Assigned(columns, assignments, PrimaryKeyIndex(columns).value)
  {
  }

  lemma UpdatedRowOk(db: Database, t: string, assignments: seq<Assignment>, fetched: seq<(Key, Row)>, i: nat)
    requires t in db.tables && ColumnsOk(db.tables[t].schema.columns)
    requires RowsOk(db.tables[t].schema, db.tables[t].rows)
    requires UpdateAdmitted(db, t, assignments, fetched) && i < |fetched|
    ensures var updated := UpdatedRow(db, db.tables[t].schema.columns, assignments, fetched[i].1);
            RowOk(db.tables[t].schema, updated) && Keyed(db.tables[t].schema.columns, fetched[i].0, updated)
  {
    hide Fits, ColumnsOk, UpdatedRow;
    var schema, row := db.tables[t].schema, fetched[i].1;
    var columns := schema.columns;
    var updated := UpdatedRow(db, columns, assignments, row);
    assert RowOk(schema, row);
    forall c | 0 <= c < |updated| ensures Fits(updated[c], columns[c].dataType, columns[c].nullable) {
      UpdatedColumn(db, schema, assignments, row, c);
    }
    forall c | IsUnique(columns, c) ensures Usable(updated, c) {
      UpdatedColumn(db, schema, assignments, row, c);
      if Assigned(columns, assignments, c) {
        AssignedUniqueColumnIsChecked(columns, assignments, c);
        var news := RowsOnly(UpdatedRows(db, columns, assignments, fetched));
        assert DistinctKeys(news, c) && news[i] == updated;
      }
    }
    if PrimaryKeyIndex(columns).Some? {
      var p := PrimaryKeyIndex(columns).value;
      PrimaryKeyIsNotAssigned(columns, assignments);
      UpdatedColumn(db, schema, assignments, row, p);
    }
  }

  /** A column that is not assigned keeps its key. */
  lemma UnassignedColumnKeepsKey(
      db: Database, t: string, assignments: seq<Assignment>, fetched: seq<(Key, Row)>, i: nat, c: nat)
    requires t in db.tables && ColumnsOk(db.tables[t].schema.columns) && RowsOk(db.tables[t].schema, db.tables[t].rows)
    requires UpdateAdmitted(db, t, assignments, fetched) && i < |fetched|
    requires IsUnique(db.tables[t].schema.columns, c) && !Assigned(db.tables[t].schema.columns, assignments, c)
    ensures Usable(fetched[i].1, c) && Usable(UpdatedRow(db, db.tables[t].schema.columns, assignments, fetched[i].1), c)
    ensures KeyAt(UpdatedRow(db, db.tables[t].schema.columns, assignments, fetched[i].1), c) == KeyAt(fetched[i].1, c)
  {
    hide ColumnsOk, UpdatedRow, ToKey, Canonical, RowAccepts, Keyed, FitsPrefix, ScanAccepts;
    RowOkUsable(db.tables[t].schema, fetched[i].1, c);
    UpdatedColumn(db, db.tables[t].schema, assignments, fetched[i].1, c);
  }

  /** Two new rows under different keys do not clash. */
  lemma UpdatedRowsDoNotClash(
      db: Database, t: string, assignments: seq<Assignment>, fetched: seq<(Key, Row)>, i: nat, j: nat, c: nat)
    requires t in db.tables && ColumnsOk(db.tables[t].schema.columns) && TableOk(db.tables[t], db.idCounter)
    requires UpdateAdmitted(db, t, assignments, fetched) && i < |fetched| && j < |fetched| &&
        fetched[i].0 != fetched[j].0
    requires IsUnique(db.tables[t].schema.columns, c)
    requires Usable(UpdatedRow(db, db.tables[t].schema.columns, assignments, fetched[i].1), c)
    requires Usable(UpdatedRow(db, db.tables[t].schema.columns, assignments, fetched[j].1), c)
    ensures NoClash(UpdatedRow(db, db.tables[t].schema.columns, assignments, fetched[i].1),
                    UpdatedRow(db, db.tables[t].schema.columns, assignments, fetched[j].1), c)
  {
    hide ColumnsOk, UpdatedRow, ToKey, Canonical, RowAccepts, RowsOk, NewToTable, KeyAt;
    var columns := db.tables[t].schema.columns;
    if Assigned(columns, assignments, c) {
      AssignedUniqueColumnIsChecked(columns, assignments, c);
      var news := RowsOnly(UpdatedRows(db, columns, assignments, fetched));
      assert DistinctKeys(news, c);
      assert news[i] == UpdatedRow(db, columns, assignments, fetched[i].1);
      assert news[j] == UpdatedRow(db, columns, assignments, fetched[j].1);
    } else {
      UnassignedColumnKeepsKey(db, t, assignments, fetched, i, c);
      UnassignedColumnKeepsKey(db, t, assignments, fetched, j, c);
      assert NoClash(fetched[i].1, fetched[j].1, c);
    }
  }

  /** A new row does not clash with a stored row under another key. */
  lemma UpdatedRowIsNew(
      db: Database, t: string, assignments: seq<Assignment>, fetched: seq<(Key, Row)>, i: nat, k: Key, c: nat)
    requires t in db.tables && ColumnsOk(db.tables[t].schema.columns) && TableOk(db.tables[t], db.idCounter)
    requires UpdateAdmitted(db, t, assignments, fetched) && i < |fetched| && k in db.tables[t].rows && fetched[i].0 != k
    requires IsUnique(db.tables[t].schema.columns, c) && Usable(db.tables[t].rows[k], c)
    requires Usable(UpdatedRow(db, db.tables[t].schema.columns, assignments, fetched[i].1), c)
    ensures NoClash(UpdatedRow(db, db.tables[t].schema.columns, assignments, fetched[i].1), db.tables[t].rows[k], c)
  {
    hide ColumnsOk, UpdatedRow, ToKey, Canonical, RowAccepts, RowsOk, DistinctKeys, KeyAt;
    var columns := db.tables[t].schema.columns;
    if Assigned(columns, assignments, c) {
      AssignedUniqueColumnIsChecked(columns, assignments, c);
      var news := RowsOnly(UpdatedRows(db, columns, assignments, fetched));
      assert NewToTable(db.tables[t], c, news);
      assert news[i] == UpdatedRow(db, columns, assignments, fetched[i].1);
    } else {
      UnassignedColumnKeepsKey(db, t, assignments, fetched, i, c);
      assert NoClash(fetched[i].1, db.tables[t].rows[k], c);
    }
  }

  lemma UpdateIsSafe(db: Database, t: string, assignments: seq<Assignment>, fetched: seq<(Key, Row)>)
    requires Consistent(db) && t in db.tables && UpdateAdmitted(db, t, assignments, fetched)
    ensures Safe(db, t, UpdatedRows(db, db.tables[t].schema.columns, assignments, fetched), db.idCounter)
  {
    hide RowOk, Keyed, NoClash, UpdatedRow, SchemasOk, ForeignKeysHold, Usable, ScanAccepts, RowAccepts, Assignable;
    var schema, rows := db.tables[t].schema, db.tables[t].rows;
    var changes := UpdatedRows(db, schema.columns, assignments, fetched);
    ColumnsOkIn(db, t);
    hide ColumnsOk;
    assert TableOk(db.tables[t], db.idCounter);
    hide Uniqueness;
    forall i | 0 <= i < |changes|
      ensures RowOk(schema, changes[i].1) && Keyed(schema.columns, changes[i].0, changes[i].1)
    {
      UpdatedRowOk(db, t, assignments, fetched, i);
    }
    forall c, i, j | IsUnique(schema.columns, c) && 0 <= i < |changes| && 0 <= j < |changes| &&
      changes[i].0 != changes[j].0
      ensures Usable(changes[i].1, c) && Usable(changes[j].1, c) && NoClash(changes[i].1, changes[j].1, c)
    {
      RowOkUsable(schema, changes[i].1, c);
      RowOkUsable(schema, changes[j].1, c);
      UpdatedRowsDoNotClash(db, t, assignments, fetched, i, j, c);
    }
    forall c, i, k | IsUnique(schema.columns, c) && 0 <= i < |changes| && k in rows && k != changes[i].0
      ensures Usable(changes[i].1, c) && Usable(rows[k], c) && NoClash(changes[i].1, rows[k], c)
    {
      RowOkUsable(schema, changes[i].1, c);
      RowOkUsable(schema, rows[k], c);
      UpdatedRowIsNew(db, t, assignments, fetched, i, k, c);
    }
  }

  lemma ColumnsOkIn(db: Database, t: string)
    requires SchemasOk(db) && t in db.tables
    ensures ColumnsOk(db.tables[t].schema.columns)
    ensures forall fk | fk in db.tables[t].schema.foreignKeys :: ForeignKeyOk(db, db.tables[t].schema, fk)
  {
  }

  /** Updated rows refer to stored rows if the old rows did. */
  lemma UpdateRefers(db: Database, t: string, assignments: seq<Assignment>, fetched: seq<(Key, Row)>, fk: ForeignKey)
    requires SchemasOk(db) && t in db.tables && UpdateAdmitted(db, t, assignments, fetched)
    requires fk in db.tables[t].schema.foreignKeys && References(db, t, fk)
    ensures ChangesRefer(db, t, UpdatedRows(db, db.tables[t].schema.columns, assignments, fetched), fk)
  {
    hide UpdatedRow, Refers, ColumnsOk;
    var schema := db.tables[t].schema;
    ColumnsOkIn(db, t);
    var c := ColumnIndex(schema.columns, fk.referencingColumn).value;
    forall i | 0 <= i < |fetched|
      ensures RowRefers(db, schema, fk, UpdatedRow(db, schema.columns, assignments, fetched[i].1))
    {
      assert RowRefers(db, schema, fk, fetched[i].1);
      UpdatedColumn(db, schema, assignments, fetched[i].1, c);
    }
  }

  lemma UpdateAdmits(db: Database, t: string, assignments: seq<Assignment>, selection: Option<Condition>)
    requires UpdateAccepts(db, t, assignments, selection)
    ensures UpdateAdmitted(db, t, assignments, Fetch(db, selection, Scan(db.tables[t].rows)))
  {
    hide Scan, Fetch, RowAccepts;
    var fetched := Fetch(db, selection, Scan(db.tables[t].rows));
    forall i | 0 <= i < |fetched|
      ensures fetched[i].0 in db.tables[t].rows && db.tables[t].rows[fetched[i].0] == fetched[i].1
    {
      FetchedFromTable(db, selection, db.tables[t].rows, i);
    }
  }

  lemma UpdateKeepsConsistency(
      db: Database, t: string, assignments: seq<Assignment>, selection: Option<Condition>,
      approx: (Value, Value) -> bool, n: nat)
    requires Consistent(db) && UpdateAccepts(db, t, assignments, selection)
    requires CanApply(db, t, ChangeOf(approx, db, Update(t, assignments, selection)), n)
    ensures Consistent(Apply(db, t, ChangeOf(approx, db, Update(t, assignments, selection)), n))
  {
    hide Safe, UpdateAdmitted, TableOk, SchemasOk, References, Scan, Fetch, RowAccepts, ChangesRefer, UpdateAccepts;
    var fetched := Fetch(db, selection, Scan(db.tables[t].rows));
    UpdateAdmits(db, t, assignments, selection);
    UpdateIsSafe(db, t, assignments, fetched);
    forall fk | fk in db.tables[t].schema.foreignKeys && fk.referencedTable != t
      ensures ChangesRefer(db, t, UpdatedRows(db, db.tables[t].schema.columns, assignments, fetched), fk)
    {
      UpdateRefers(db, t, assignments, fetched, fk);
    }
    WritePrefixKeepsConsistency(db, t, UpdatedRows(db, db.tables[t].schema.columns, assignments, fetched), n);
  }

  // ----- DELETE -----

  /** A value mentions itself: `=` finds every reference to a primary key. */
  lemma SameValueIsMentioned(approx: (Value, Value) -> bool, v: Value)
    requires !v.Null? && !v.F32? && !v.F64?
    ensures EvaluateEq(approx, v, v) == Tribool.True
  {
    EqualExactlyWhenHashedAlike(v, v);
  }

  /** The row's primary-key value, which is what a referencing row would mention. */
  lemma StoredPrimaryKey(db: Database, t: string, k: Key, p: nat)
    requires t in db.tables && ColumnsOk(db.tables[t].schema.columns) && RowsOk(db.tables[t].schema, db.tables[t].rows)
    requires PrimaryKeyIndex(db.tables[t].schema.columns) == Some(p) && k in db.tables[t].rows
    ensures var row := db.tables[t].rows[k];
            p < |row| && ToKey(row[p]) == Ok(k) && !row[p].Null? && !row[p].F32? && !row[p].F64?
  {
    hide ToKey, GetType, RowOk;
    var schema, row := db.tables[t].schema, db.tables[t].rows[k];
    assert RowOk(schema, row) && Keyed(schema.columns, k, row);
    assert schema.columns[p].unique == Some(Unique(true)) && !schema.columns[p].nullable;
    FitsColumn(schema, row, p);
    NoFloat(row[p], schema.columns[p].dataType);
  }

  lemma FitsColumn(schema: Schema, row: Row, p: nat)
    requires RowOk(schema, row) && p < |row| && p < |schema.columns|
    ensures Fits(row[p], schema.columns[p].dataType, schema.columns[p].nullable)
  {
    hide Usable, GetValue, Fits;
  }

  lemma NoFloat(v: Value, dataType: DataType)
    requires GetType(v) == Some(dataType) && !IsFloat(dataType)
    ensures !v.Null? && !v.F32? && !v.F64?
  {
  }

  /** A row that passed the referencing check is referenced by no row of another table. */
  lemma DeletableRowIsUnreferenced(
      approx: (Value, Value) -> bool, db: Database, t: string, k: Key, u: string, fk: ForeignKey, l: Key)
    requires Consistent(db) && t in db.tables && k in db.tables[t].rows
    requires Deletable(approx, db, t, db.tables[t].rows[k])
    requires u in db.tables && u != t && fk in db.tables[u].schema.foreignKeys && fk.referencedTable == t
    requires l in db.tables[u].rows
    ensures GetValue(db.tables[u].schema.columns, db.tables[u].rows[l], fk.referencingColumn).Some?
    ensures ToKey(GetValue(db.tables[u].schema.columns, db.tables[u].rows[l], fk.referencingColumn).value) != Ok(k)
  {
    hide EvaluateEq, ToKey, Fits, ColumnsOk;
    var table, row := db.tables[t], db.tables[t].rows[k];
    ColumnsOkIn(db, u);
    ColumnsOkIn(db, t);
    assert ForeignKeyOk(db, db.tables[u].schema, fk);
    var p := PrimaryKeyIndex(table.schema.columns).value;
    StoredPrimaryKey(db, t, k, p);
    assert (u, fk) in Referencings(db, t);
    assert GetValue(table.schema.columns, row, fk.referencedColumn) == Some(row[p]);
    assert Unmentioned(approx, db.tables[u], fk.referencingColumn, row[p]);
    var w := GetValue(db.tables[u].schema.columns, db.tables[u].rows[l], fk.referencingColumn);
    assert Mentions(approx, db.tables[u].schema.columns, db.tables[u].rows[l], fk.referencingColumn, row[p])
      == Ok(false);
    if ToKey(w.value) == Ok(k) {
      KeysInjective(w.value, row[p]);
      SameValueIsMentioned(approx, row[p]);
    }
  }

  lemma RemoveKeepsTable(table: Table, id: Id, keys: seq<Key>)
    requires TableOk(table, id)
    ensures TableOk(table.(rows := RemoveRows(table.rows, keys)), id)
  {
    hide RowOk, Keyed, NoClash;
  }

  /** Removing unreferenced rows keeps the references of other tables. */
  lemma RemoveKeepsReferences(
      approx: (Value, Value) -> bool, db: Database, t: string, keys: seq<Key>, u: string, fk: ForeignKey)
    requires Consistent(db) && t in db.tables
    requires forall i | 0 <= i < |keys| ::
        keys[i] in db.tables[t].rows && Deletable(approx, db, t, db.tables[t].rows[keys[i]])
    requires u in db.tables && fk in db.tables[u].schema.foreignKeys && fk.referencedTable != u
    ensures References(WithRows(db, t, RemoveRows(db.tables[t].rows, keys), db.idCounter), u, fk)
  {
    hide SchemasOk, TableOk, ToKey, Deletable;
    var db' := WithRows(db, t, RemoveRows(db.tables[t].rows, keys), db.idCounter);
    assert References(db, u, fk);
    forall l | l in db'.tables[u].rows ensures RowRefers(db', db'.tables[u].schema, fk, db'.tables[u].rows[l]) {
      var row := db'.tables[u].rows[l];
      assert RowRefers(db, db.tables[u].schema, fk, row);
      if fk.referencedTable == t {
        var v := GetValue(db.tables[u].schema.columns, row, fk.referencingColumn).value;
        if !v.Null? && ToKey(v).value in keys {
          var i :| 0 <= i < |keys| && keys[i] == ToKey(v).value;
          DeletableRowIsUnreferenced(approx, db, t, keys[i], u, fk, l);
          assert false;
        }
      }
    }
  }

  lemma DeleteKeepsConsistency(
      approx: (Value, Value) -> bool, db: Database, t: string, selection: Option<Condition>, n: nat)
    requires Consistent(db) && DeleteAccepts(approx, db, t, selection)
    requires CanApply(db, t, ChangeOf(approx, db, Delete(t, selection)), n)
    ensures Consistent(Apply(db, t, ChangeOf(approx, db, Delete(t, selection)), n))
  {
    hide Scan, Fetch, Deletable, References, SchemasOk;
    var table := db.tables[t];
    var fetched := Fetch(db, selection, Scan(table.rows));
    var keys := KeysOnly(fetched)[..n];
    forall i | 0 <= i < |keys| ensures keys[i] in table.rows && Deletable(approx, db, t, table.rows[keys[i]]) {
      FetchedFromTable(db, selection, table.rows, i);
    }
    var rows := RemoveRows(table.rows, keys);
    var db' := WithRows(db, t, rows, db.idCounter);
    SchemasUnchanged(db, t, rows, db.idCounter);
    RemoveKeepsTable(table, db.idCounter, keys);
    forall u, fk | u in db'.tables && fk in db'.tables[u].schema.foreignKeys && fk.referencedTable != u
      ensures References(db', u, fk)
    {
      RemoveKeepsReferences(approx, db, t, keys, u, fk);
    }
  }

  // ----- whole runs -----

  /** Every statement, rejected, completed or cut short by a storage failure after any number of row
    operations, leads from a consistent store to a consistent one. */
  lemma StepKeepsConsistency(
      approx: (Value, Value) -> bool, db: Database, s: Statement, db': Database, r: Result<Payload>)
    requires Consistent(db) && Step(approx, db, s, db', r)
    ensures Consistent(db')
  {
    hide Consistent, InsertAccepts, UpdateAccepts, DeleteAccepts, Apply;
    if Accepts(approx, db, s) {
      var change := ChangeOf(approx, db, s);
      var n :| 0 <= n <= Size(change) && CanApply(db, s.table, change, n) && db' == Apply(db, s.table, change, n);
      match s
      case Insert(t, names, source) => InsertKeepsConsistency(db, t, names, source, approx, n);
      case Update(t, assignments, selection) => UpdateKeepsConsistency(db, t, assignments, selection, approx, n);
      case Delete(t, selection) => DeleteKeepsConsistency(approx, db, t, selection, n);
    }
  }

  /** A run: each statement leads from one store to the next. */
  ghost predicate Run(
      approx: (Value, Value) -> bool, trace: seq<Database>, statements: seq<Statement>, results: seq<Result<Payload>>)
  {
    && |trace| == |statements| + 1 && |results| == |statements|
    && forall i | 0 <= i < |statements| :: Step(approx, trace[i], statements[i], trace[i + 1], results[i])
  }

  /** Referential integrity and uniqueness over whole runs: from a consistent store, every store of
    every run is consistent. */
  lemma {:induction false} RunsStayConsistent(
      approx: (Value, Value) -> bool, trace: seq<Database>, statements: seq<Statement>, results: seq<Result<Payload>>,
      i: nat)
    requires Run(approx, trace, statements, results) && Consistent(trace[0]) && i < |trace|
    ensures Consistent(trace[i])
  {
    hide Consistent, Step;
    if i > 0 {
      RunsStayConsistent(approx, trace, statements, results, i - 1);
      StepKeepsConsistency(approx, trace[i - 1], statements[i - 1], trace[i], results[i - 1]);
    }
  }
}
