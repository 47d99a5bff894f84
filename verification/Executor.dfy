/** The loops that decide whether a statement is accepted, and what rows it changes. */
module Executor {
  import opened Data
  import opened Store
  import opened Dml

  // ----- INSERT -----

  /** `validate_foreign_key`. */
  method ValidateForeignKeys(db: Database, schema: Schema, rows: seq<Row>) returns (r: Result<()>)
    ensures r.Ok? <==> ForeignKeysAccept(db, schema, rows)
  {
    for i := 0 to |schema.foreignKeys|
      invariant forall j | 0 <= j < i ::
          ColumnIndex(schema.columns, schema.foreignKeys[j].referencingColumn).Some? &&
          forall k | 0 <= k < |rows| :: RowRefers(db, schema, schema.foreignKeys[j], rows[k])
    {
      var fk := schema.foreignKeys[i];
      assert fk in schema.foreignKeys;
      var target := ColumnIndex(schema.columns, fk.referencingColumn);
      if target.None? {
        return Err(Error("unreachable referencing column name"));
      }
      for k := 0 to |rows|
        invariant forall l | 0 <= l < k :: RowRefers(db, schema, fk, rows[l])
      {
        if target.value >= |rows[k]| {
          assert !RowRefers(db, schema, fk, rows[k]);
          return Err(Error("unreachable referencing column name"));
        }
        var value := rows[k][target.value];
        if !value.Null? {
          var key := ToKey(value);
          if key.Err? {
            assert !RowRefers(db, schema, fk, rows[k]);
            return Err(key.error);
          }
          if fk.referencedTable !in db.tables || key.value !in db.tables[fk.referencedTable].rows {
            assert !RowRefers(db, schema, fk, rows[k]);
            return Err(Error("cannot find referenced value"));
          }
        }
      }
    }
    return Ok(());
  }

  // ----- UPDATE -----

  /** `Update::new`. */
  method CheckAssignments(columns: seq<ColumnDef>, assignments: seq<Assignment>) returns (r: Result<()>)
    ensures r.Ok? <==> Assignable(columns, assignments)
  {
    for j := 0 to |assignments|
      invariant Assignable(columns, assignments[..j])
    {
      assert forall i | 0 <= i < j :: assignments[..j][i] == assignments[i];
      var a := assignments[j];
      if forall i | 0 <= i < |columns| :: columns[i].name != a.id {
        assert assignments[j].id == a.id;
        return Err(Error("column not found"));
      } else if exists i | 0 <= i < |columns| ::
          columns[i].name == a.id && columns[i].unique == Some(Unique(true)) {
        return Err(Error("update on primary key is not supported"));
      }
      assert assignments[..j + 1] == assignments[..j] + [assignments[j]];
    }
    assert assignments[..|assignments|] == assignments;
    return Ok(());
  }

  /** The foreign key loop of `Update::apply` for one assigned value. */
  method CheckReferences(db: Database, schema: Schema, id: string, value: Value) returns (r: Result<()>)
    ensures r.Ok? <==> forall fk | fk in schema.foreignKeys && fk.referencingColumn == id :: Refers(db, fk, value)
  {
    if value.Null? {
      return Ok(());
    }
    for i := 0 to |schema.foreignKeys|
      invariant forall j | 0 <= j < i && schema.foreignKeys[j].referencingColumn == id ::
          Refers(db, schema.foreignKeys[j], value)
    {
      var fk := schema.foreignKeys[i];
      assert fk in schema.foreignKeys;
      if fk.referencingColumn == id {
        var key := ToKey(value);
        if key.Err? {
          return Err(key.error);
        }
        if fk.referencedTable !in db.tables || key.value !in db.tables[fk.referencedTable].rows {
          return Err(Error("cannot find referenced value"));
        }
      }
    }
    return Ok(());
  }

  /** The value of one column: the first assignment to it, or else the old value. */
  method FirstAssigned(
      db: Database, schema: Schema, assignments: seq<Assignment>, pairs: seq<(string, Value)>, row: Row, c: nat)
    returns (value: Value)
    requires c < |row| && c < |schema.columns| && |pairs| == |assignments|
    requires forall j | 0 <= j < |pairs| ::
               pairs[j].0 == assignments[j].id &&
                 AssignedValue(db, schema.columns, assignments[j], row) == Ok(pairs[j].1)
    ensures value == NewValue(db, schema.columns, assignments, row, schema.columns[c].name, row[c])
  {
    hide AssignedValue;
    var name := schema.columns[c].name;
    var j := 0;
    while j < |pairs| && pairs[j].0 != name
      invariant 0 <= j <= |pairs|
      invariant NewValue(db, schema.columns, assignments, row, name, row[c]) ==
                NewValue(db, schema.columns, assignments[j..], row, name, row[c])
    {
      assert assignments[j..][1..] == assignments[j + 1..];
      j := j + 1;
    }
    value := if j < |pairs| then pairs[j].1 else row[c];
  }

  /** `Update::apply`: evaluate all assignments on the old row, then build the new row. */
  method ApplyUpdate(db: Database, schema: Schema, assignments: seq<Assignment>, row: Row) returns (r: Result<Row>)
    ensures r.Ok? <==> RowAccepts(db, schema, assignments, row)
    ensures r.Ok? ==> r.value == UpdatedRow(db, schema.columns, assignments, row)
  {
    hide AssignedValue, NewValue;
    var pairs: seq<(string, Value)> := [];
    for i := 0 to |assignments|
      invariant |pairs| == i
      invariant forall j | 0 <= j < i :: AssignmentAccepts(db, schema, assignments[j], row)
      invariant forall j | 0 <= j < i ::
          pairs[j].0 == assignments[j].id && AssignedValue(db, schema.columns, assignments[j], row) == Ok(pairs[j].1)
    {
      var value := AssignedValue(db, schema.columns, assignments[i], row);
      if value.Err? {
        return Err(value.error);
      }
      var checked := CheckReferences(db, schema, assignments[i].id, value.value);
      if checked.Err? {
        return Err(checked.error);
      }
      pairs := pairs + [(assignments[i].id, value.value)];
    }
    var width := if |row| <= |schema.columns| then |row| else |schema.columns|;
    var values: Row := [];
    for c := 0 to width
      invariant |values| == c
      invariant forall d | 0 <= d < c :: values[d] == UpdatedRow(db, schema.columns, assignments, row)[d]
    {
      var value := FirstAssigned(db, schema, assignments, pairs, row, c);
      values := values + [value];
    }
    return Ok(values);
  }

  lemma FetchStep(db: Database, selection: Option<Condition>, scanned: seq<(Key, Row)>, i: nat)
    requires i < |scanned|
    ensures Fetch(db, selection, scanned[..i + 1]) ==
            Fetch(db, selection, scanned[..i]) + if Selects(db, selection, scanned[i].1) == Ok(true) then [scanned[i]]
              else []
  {
    assert scanned[..i + 1][..i] == scanned[..i];
  }

  /** A row that fails makes the whole statement fail. */
  lemma FetchedPrefix(db: Database, selection: Option<Condition>, rows: seq<(Key, Row)>, n: nat)
    requires n <= |rows|
    ensures Fetch(db, selection, rows[..n]) <= Fetch(db, selection, rows)
    decreases |rows| - n
  {
    if n < |rows| {
      FetchStep(db, selection, rows, n);
      FetchedPrefix(db, selection, rows, n + 1);
    } else {
      assert rows[..n] == rows;
    }
  }

  ghost predicate AllAccept(db: Database, schema: Schema, assignments: seq<Assignment>, fetched: seq<(Key, Row)>) {
    forall i | 0 <= i < |fetched| :: RowAccepts(db, schema, assignments, fetched[i].1)
  }

  /** Scan, select and update row by row, stopping at the first error. */
  method CollectUpdates(db: Database, table: Table, assignments: seq<Assignment>, selection: Option<Condition>)
    returns (r: Result<seq<(Key, Row)>>)
    ensures var scanned := Scan(table.rows);
            var fetched := Fetch(db, selection, scanned);
            && (r.Ok? <==> Evaluable(db, selection, scanned) && AllAccept(db, table.schema, assignments, fetched))
            && (r.Ok? ==> r.value == UpdatedRows(db, table.schema.columns, assignments, fetched))
  {
    hide Scan, RowAccepts, UpdatedRow, Selects;
    var scanned := Scan(table.rows);
    var rows: seq<(Key, Row)> := [];
    for i := 0 to |scanned|
      invariant Evaluable(db, selection, scanned[..i])
      invariant AllAccept(db, table.schema, assignments, Fetch(db, selection, scanned[..i]))
      invariant rows == UpdatedRows(db, table.schema.columns, assignments, Fetch(db, selection, scanned[..i]))
    {
      FetchStep(db, selection, scanned, i);
      FetchedPrefix(db, selection, scanned, i + 1);
      var selected := Selects(db, selection, scanned[i].1);
      if selected.Err? {
        return Err(selected.error);
      }
      if selected.value {
        assert selected == Ok(true);
        var updated := ApplyUpdate(db, table.schema, assignments, scanned[i].1);
        if updated.Err? {
          ghost var k := |Fetch(db, selection, scanned[..i])|;
          assert Fetch(db, selection, scanned)[k] == scanned[i];
          return Err(updated.error);
        }
        rows := rows + [(scanned[i].0, updated.value)];
      }
      assert scanned[..i + 1] == scanned[..i] + [scanned[i]];
    }
    assert scanned[..|scanned|] == scanned;
    return Ok(rows);
  }

  // ----- DELETE -----

  /** Does any row of the referencing table mention the value?  A row that lacks the column is an error. */
  method FindMention(approx: (Value, Value) -> bool, table: Table, column: string, v: Value) returns (r: Result<bool>)
    ensures r == Ok(false) <==> Unmentioned(approx, table, column, v)
  {
    hide Scan, Mentions;
    var scanned := Scan(table.rows);
    for i := 0 to |scanned|
      invariant forall j | 0 <= j < i :: Mentions(approx, table.schema.columns, scanned[j].1, column, v) == Ok(false)
    {
      ScanEntry(table.rows, i);
      var mentions := Mentions(approx, table.schema.columns, scanned[i].1, column, v);
      if mentions.Err? {
        return mentions;
      }
      if mentions.value {
        assert mentions == Ok(true);
        return Ok(true);
      }
      assert mentions == Ok(false);
    }
    forall k | k in table.rows ensures Mentions(approx, table.schema.columns, table.rows[k], column, v) == Ok(false) {
      var i := ScanIndex(table.rows, k);
    }
    return Ok(false);
  }

  /** The loop over the referencing foreign keys for one row to be deleted. */
  method CheckReferencings(approx: (Value, Value) -> bool, db: Database, name: string, row: Row) returns (r: Result<()>)
    requires name in db.tables
    ensures r.Ok? <==> Deletable(approx, db, name, row)
  {
    var columns := db.tables[name].schema.columns;
    var todo := Referencings(db, name);
    while todo != {}
      invariant todo <= Referencings(db, name)
      invariant forall t, fk | (t, fk) in Referencings(db, name) && (t, fk) !in todo ::
          GetValue(columns, row, fk.referencedColumn).Some? &&
          Unmentioned(approx, db.tables[t], fk.referencingColumn, GetValue(columns, row, fk.referencedColumn).value)
      decreases |todo|
    {
      var referencing :| referencing in todo;
      var (t, fk) := referencing;
      assert (t, fk) in Referencings(db, name);
      var value := GetValue(columns, row, fk.referencedColumn);
      if value.None? {
        return Err(Error("Value not found on column"));
      }
      var found := FindMention(approx, db.tables[t], fk.referencingColumn, value.value);
      if found.Err? {
        return Err(found.error);
      }
      if found.value {
        assert found == Ok(true);
        return Err(Error("referencing column exists"));
      }
      assert found == Ok(false);
      todo := todo - {referencing};
    }
    return Ok(());
  }

  ghost predicate AllDeletable(approx: (Value, Value) -> bool, db: Database, name: string, fetched: seq<(Key, Row)>)
    requires name in db.tables
  {
    forall i | 0 <= i < |fetched| :: Deletable(approx, db, name, fetched[i].1)
  }

  /** The keys of the selected rows, provided none of them is referenced. */
  method CollectDeletions(approx: (Value, Value) -> bool, db: Database, name: string, selection: Option<Condition>)
    returns (r: Result<seq<Key>>)
    requires name in db.tables
    ensures var scanned := Scan(db.tables[name].rows);
            var fetched := Fetch(db, selection, scanned);
            && (r.Ok? <==> Evaluable(db, selection, scanned) && AllDeletable(approx, db, name, fetched))
            && (r.Ok? ==> r.value == KeysOnly(fetched))
  {
    hide Scan, Deletable, Selects;
    var scanned := Scan(db.tables[name].rows);
    var keys: seq<Key> := [];
    for i := 0 to |scanned|
      invariant Evaluable(db, selection, scanned[..i])
      invariant AllDeletable(approx, db, name, Fetch(db, selection, scanned[..i]))
      invariant keys == KeysOnly(Fetch(db, selection, scanned[..i]))
    {
      FetchStep(db, selection, scanned, i);
      FetchedPrefix(db, selection, scanned, i + 1);
      var selected := Selects(db, selection, scanned[i].1);
      if selected.Err? {
        return Err(selected.error);
      }
      if selected.value {
        assert selected == Ok(true);
        var checked := CheckReferencings(approx, db, name, scanned[i].1);
        if checked.Err? {
          ghost var k := |Fetch(db, selection, scanned[..i])|;
          assert Fetch(db, selection, scanned)[k] == scanned[i];
          return Err(checked.error);
        }
        keys := keys + [scanned[i].0];
      }
      assert scanned[..i + 1] == scanned[..i] + [scanned[i]];
    }
    assert scanned[..|scanned|] == scanned;
    return Ok(keys);
  }
}
