/** What each statement changes, what it reports, and where the source falls short of a foreign key. */
module DmlFacts {
  import opened Data
  import opened Store
  import opened Validate
  import opened Dml
  import opened Integrity
  import opened Reachable

  // ----- the two uniqueness checks -----

  /** For rows of the table's types, the full scan accepts a batch exactly when the primary-key
    lookup does and the batch itself repeats no key and lacks no key. */
  lemma ScanAgreesWithLookup(table: Table, id: Id, p: nat, rows: seq<Row>)
    requires ColumnsOk(table.schema.columns) && TableOk(table, id) && PrimaryKeyIndex(table.schema.columns) == Some(p)
    requires forall i | 0 <= i < |rows| :: FitsPrefix(table.schema.columns, rows[i])
    ensures ScanAccepts(table, [p], rows) <==> LookupAccepts(table, p, rows) && DistinctKeys(rows, p)
  {
    hide ToKey, Canonical, ColumnsOk, FitsPrefix;
    if DistinctKeys(rows, p) {
      forall i | 0 <= i < |rows| ensures KeyAt(rows[i], p) == ToKey(rows[i][p]).value && !KeyAt(rows[i], p).None? {
        UniqueKeyPlain(table.schema.columns, rows[i], p);
        PrimaryKeyNotNull(table.schema.columns, rows[i], p);
      }
      forall k | k in table.rows ensures Usable(table.rows[k], p) && KeyAt(table.rows[k], p) == k && !k.None? {
        RowOkUsable(table.schema, table.rows[k], p);
        UniqueKeyPlain(table.schema.columns, table.rows[k], p);
        PrimaryKeyNotNull(table.schema.columns, table.rows[k], p);
        assert Keyed(table.schema.columns, k, table.rows[k]);
      }
      if NewToTable(table, p, rows) {
        forall i | 0 <= i < |rows| ensures ToKey(rows[i][p]).value !in table.rows {
          assert HoldsKey(rows, p, KeyAt(rows[i], p));
        }
      }
      assert [p][0] == p;
    } else {
      assert p in [p];
    }
  }

  lemma PrimaryKeyNotNull(columns: seq<ColumnDef>, row: Row, p: nat)
    requires ColumnsOk(columns) && FitsPrefix(columns, row) && PrimaryKeyIndex(columns) == Some(p) && Usable(row, p)
    ensures !KeyAt(row, p).None?
  {
    assert Fits(row[p], columns[p].dataType, columns[p].nullable);
  }

  // ----- INSERT -----

  ghost predicate DistinctChanges(changes: seq<(Key, Row)>) {
    forall i, j | 0 <= i < j < |changes| :: changes[i].0 != changes[j].0
  }

  lemma DistinctChangesStep(changes: seq<(Key, Row)>)
    requires changes != []
    ensures var n := |changes| - 1;
            DistinctChanges(changes) <==>
            DistinctChanges(changes[..n]) && forall i | 0 <= i < n :: changes[..n][i].0 != changes[n].0
  {
    var n := |changes| - 1;
    assert forall i | 0 <= i < n :: changes[..n][i] == changes[i];
  }

  lemma {:induction false} WrittenCount(rows: map<Key, Row>, changes: seq<(Key, Row)>)
    requires forall i | 0 <= i < |changes| :: changes[i].0 !in rows
    ensures |WriteRows(rows, changes)| <= |rows| + |changes|
    ensures |WriteRows(rows, changes)| == |rows| + |changes| <==> DistinctChanges(changes)
  {
    if changes != [] {
      hide DistinctChanges;
      var n := |changes| - 1;
      var init, last := changes[..n], changes[n];
      var before := WriteRows(rows, init);
      WrittenCount(rows, init);
      DistinctChangesStep(changes);
      assert last.0 in before <==> exists i | 0 <= i < |init| :: init[i].0 == last.0 by { WrittenRows(rows, init); }
      assert WriteRows(rows, changes).Keys == before.Keys + {last.0};
    } else {
      assert DistinctChanges(changes);
    }
  }

  lemma AdmittedKeyIsNew(db: Database, t: string, rows: seq<Row>, p: nat, i: nat)
    requires Consistent(db) && t in db.tables && Admitted(db, t, rows) && i < |rows| && p < |rows[i]|
    requires PrimaryKeyIndex(db.tables[t].schema.columns) == Some(p) && ToKey(rows[i][p]).Ok?
    ensures ToKey(rows[i][p]).value !in db.tables[t].rows
  {
    hide ToKey, Canonical, FitsPrefix, SchemasOk, ForeignKeysHold;
    var table, key := db.tables[t], ToKey(rows[i][p]).value;
    ColumnsOkIn(db, t);
    hide ColumnsOk;
    assert TableOk(table, db.idCounter);
    if key in table.rows {
      var stored := table.rows[key];
      assert Keyed(table.schema.columns, key, stored);
      RowOkUsable(table.schema, stored, p);
      AdmittedRowIsNew(db, t, rows, i, key, p);
      PrimaryKeyNotNull(table.schema.columns, rows[i], p);
    }
  }

  /** INSERT reports the number of rows it wrote.  The table grows by that number exactly when the
    batch repeats no primary key, because the primary-key path does not compare the new rows with
    each other and the later of two equal keys wins. */
  lemma InsertCount(db: Database, t: string, rows: seq<Row>, p: nat)
    requires Consistent(db) && t in db.tables && Admitted(db, t, rows)
    requires PrimaryKeyIndex(db.tables[t].schema.columns) == Some(p) && Keyable(rows, p)
    ensures var changes := UnderPrimaryKey(rows, p);
            var after := WriteRows(db.tables[t].rows, changes);
            && |after| <= |db.tables[t].rows| + |changes|
            && (|after| == |db.tables[t].rows| + |changes| <==> DistinctChanges(changes))
  {
    hide Consistent, Admitted, WriteRows, UnderPrimaryKey;
    var changes := UnderPrimaryKey(rows, p);
    forall i | 0 <= i < |changes| ensures changes[i].0 !in db.tables[t].rows {
      var j := UnderPrimaryKeyFrom(rows, p, i);
      AdmittedKeyIsNew(db, t, rows, p, j);
    }
    WrittenCount(db.tables[t].rows, changes);
  }

  // ----- UPDATE -----

  /** UPDATE keeps the key set, leaves unselected rows alone, and replaces each selected row. */
  lemma UpdateFrame(db: Database, t: string, assignments: seq<Assignment>, selection: Option<Condition>, k: Key)
    requires UpdateAccepts(db, t, assignments, selection)
    ensures var rows, columns := db.tables[t].rows, db.tables[t].schema.columns;
            var after := WriteRows(rows, UpdatedRows(db, columns, assignments, Fetch(db, selection, Scan(rows))));
            && (k in after <==> k in rows)
            && (k in rows ==>
                  (Selects(db, selection, rows[k]) == Ok(true) &&
                    after[k] == UpdatedRow(db, columns, assignments, rows[k]))
                  || (Selects(db, selection, rows[k]) == Ok(false) && after[k] == rows[k]))
  {
    hide Scan, Fetch, UpdatedRow, WriteRows, RowAccepts, BatchAccepts;
    var rows, columns := db.tables[t].rows, db.tables[t].schema.columns;
    var fetched := Fetch(db, selection, Scan(rows));
    var changes := UpdatedRows(db, columns, assignments, fetched);
    WrittenRows(rows, changes);
    forall i | 0 <= i < |fetched|
      ensures fetched[i].0 in rows &&
          changes[i] == (fetched[i].0, UpdatedRow(db, columns, assignments, rows[fetched[i].0]))
      ensures Selects(db, selection, rows[fetched[i].0]) == Ok(true)
    {
      FetchedFromTable(db, selection, rows, i);
    }
    if k in rows {
      var j := ScanIndex(rows, k);
      assert Selects(db, selection, Scan(rows)[j].1).Ok?;
      if Selects(db, selection, rows[k]).value {
        var i := FetchComplete(db, selection, Scan(rows), j);
        assert changes[i].0 == k;
      }
    }
  }

  /** An updated row differs from the old one only in assigned columns that the row has. */
  lemma UpdateTouchesAssignedColumnsOnly(
      db: Database, columns: seq<ColumnDef>, assignments: seq<Assignment>, row: Row, c: nat)
    requires c < |row| && c < |columns| && !Assigned(columns, assignments, c)
    ensures UpdatedRow(db, columns, assignments, row)[c] == row[c]
  {
    NewValueUnassigned(db, columns, assignments, row, columns[c].name, row[c]);
  }

  // ----- DELETE -----

  lemma {:induction false} KeysAsSet(keys: seq<Key>)
    requires forall i, j | 0 <= i < j < |keys| :: keys[i] != keys[j]
    ensures |set k | k in keys| == |keys|
  {
    if keys != [] {
      var n := |keys| - 1;
      KeysAsSet(keys[..n]);
      assert (set k | k in keys) == (set k | k in keys[..n]) + {keys[n]};
    }
  }

  lemma EitherWay(r: Result<bool>)
    ensures r.Ok? ==> r == Ok(true) || r == Ok(false)
  {
    if r.Ok? {
      if r.value { assert r == Ok(true); } else { assert r == Ok(false); }
    }
  }

  lemma RemovedCount(rows: map<Key, Row>, keys: seq<Key>)
    requires forall k | k in keys :: k in rows
    requires forall i, j | 0 <= i < j < |keys| :: keys[i] != keys[j]
    ensures |rows| == |RemoveRows(rows, keys)| + |keys|
  {
    KeysAsSet(keys);
    var gone := set k | k in keys;
    assert RemoveRows(rows, keys).Keys == rows.Keys - gone && gone <= rows.Keys;
  }

  /** The selected keys are exactly the keys of rows that the selection accepts, each once. */
  lemma SelectedKeys(db: Database, rows: map<Key, Row>, selection: Option<Condition>)
    requires Evaluable(db, selection, Scan(rows))
    ensures var keys := KeysOnly(Fetch(db, selection, Scan(rows)));
            && (forall k :: k in keys <==> k in rows && Selects(db, selection, rows[k]) == Ok(true))
            && (forall i, j | 0 <= i < j < |keys| :: keys[i] != keys[j])
    ensures forall k | k in rows :: Selects(db, selection, rows[k]).Ok?
  {
    hide Scan, Fetch;
    var keys := KeysOnly(Fetch(db, selection, Scan(rows)));
    forall i | 0 <= i < |keys| ensures keys[i] in rows && Selects(db, selection, rows[keys[i]]) == Ok(true) {
      FetchedFromTable(db, selection, rows, i);
    }
    forall k | k in rows
      ensures Selects(db, selection, rows[k]) == Ok(true) ==> k in keys
      ensures Selects(db, selection, rows[k]).Ok?
    {
      var j := ScanIndex(rows, k);
      assert Selects(db, selection, Scan(rows)[j].1).Ok?;
      if Selects(db, selection, rows[k]) == Ok(true) {
        var i := FetchComplete(db, selection, Scan(rows), j);
        assert keys[i] == k;
      }
    }
    forall i, j | 0 <= i < j < |keys| ensures keys[i] != keys[j] {
      FetchedKeysDiffer(db, selection, rows, i, j);
    }
  }

  /** DELETE removes exactly the selected rows, and the rows before are the rows after plus the count
    it reports. */
  lemma DeleteExact(db: Database, rows: map<Key, Row>, selection: Option<Condition>)
    requires Evaluable(db, selection, Scan(rows))
    ensures var keys := KeysOnly(Fetch(db, selection, Scan(rows)));
            var after := RemoveRows(rows, keys);
            && (forall k :: k in after <==> k in rows && Selects(db, selection, rows[k]) == Ok(false))
            && (forall k | k in after :: after[k] == rows[k])
            && |rows| == |after| + |keys|
  {
    hide Scan, Fetch, Evaluable;
    SelectedKeys(db, rows, selection);
    forall k | k in rows ensures Selects(db, selection, rows[k]) == Ok(true) ||
      Selects(db, selection, rows[k]) == Ok(false) {
      EitherWay(Selects(db, selection, rows[k]));
    }
    var keys := KeysOnly(Fetch(db, selection, Scan(rows)));
    assert forall k | k in keys :: k in rows;
    assert forall i, j | 0 <= i < j < |keys| :: keys[i] != keys[j];
    RemovedCount(rows, keys);
  }

  lemma SelectedCount(db: Database, rows: map<Key, Row>, selection: Option<Condition>)
    requires Evaluable(db, selection, Scan(rows))
    ensures |Fetch(db, selection, Scan(rows))| == |set k | k in rows && Selects(db, selection, rows[k]) == Ok(true)|
  {
    hide Scan, Fetch, Evaluable;
    SelectedKeys(db, rows, selection);
    var keys := KeysOnly(Fetch(db, selection, Scan(rows)));
    forall i, j | 0 <= i < j < |keys| ensures keys[i] != keys[j] { FetchedKeysDiffer(db, selection, rows, i, j); }
    KeysAsSet(keys);
    assert (set k | k in keys) == set k | k in rows && Selects(db, selection, rows[k]) == Ok(true);
  }

  /** UPDATE reports the number of rows that the selection accepts. */
  lemma UpdateReportsSelectedRows(
      approx: (Value, Value) -> bool, db: Database, t: string, assignments: seq<Assignment>,
      selection: Option<Condition>)
    requires Accepts(approx, db, Update(t, assignments, selection))
    ensures var rows := db.tables[t].rows;
            PayloadOf(approx, db, Update(t, assignments, selection))
            == Updated(|set k | k in rows && Selects(db, selection, rows[k]) == Ok(true)|)
  {
    hide Scan, Fetch, Selects, RowAccepts, BatchAccepts, UpdatedRow;
    SelectedCount(db, db.tables[t].rows, selection);
  }

  /** The selection looks at the row only. */
  ghost predicate RowLocal(selection: Option<Condition>) {
    forall db, db', row :: Selects(db, selection, row) == Selects(db', selection, row)
  }

  /** Deleting again with a condition on the row alone finds nothing. */
  lemma DeleteTwice(db: Database, rows: map<Key, Row>, selection: Option<Condition>, db': Database)
    requires Evaluable(db, selection, Scan(rows)) && RowLocal(selection)
    ensures Fetch(db', selection, Scan(RemoveRows(rows, KeysOnly(Fetch(db, selection, Scan(rows)))))) == []
  {
    hide Scan, Fetch, Evaluable;
    DeleteExact(db, rows, selection);
    var after := RemoveRows(rows, KeysOnly(Fetch(db, selection, Scan(rows))));
    if Fetch(db', selection, Scan(after)) != [] {
      FetchedFromTable(db', selection, after, 0);
      assert false;
    }
  }

  // ----- foreign keys of a table to itself -----

  /** Inserts and updates keep the references of a table to itself too. */
  lemma InsertKeepsSelfReferences(db: Database, t: string, rows: seq<Row>, p: nat, fk: ForeignKey)
    requires Consistent(db) && t in db.tables && Admitted(db, t, rows)
    requires PrimaryKeyIndex(db.tables[t].schema.columns) == Some(p) && Keyable(rows, p)
    requires fk in db.tables[t].schema.foreignKeys && References(db, t, fk)
    ensures References(WithRows(db, t, WriteRows(db.tables[t].rows, UnderPrimaryKey(rows, p)), db.idCounter), t, fk)
  {
    hide Consistent, Admitted, Safe, References;
    KeyedBatchIsSafe(db, t, rows, p);
    WriteKeepsReferences(db, t, UnderPrimaryKey(rows, p), db.idCounter, t, fk);
  }

  lemma UpdateKeepsSelfReferences(
      db: Database, t: string, assignments: seq<Assignment>, selection: Option<Condition>, fk: ForeignKey)
    requires Consistent(db) && UpdateAccepts(db, t, assignments, selection)
    requires fk in db.tables[t].schema.foreignKeys && References(db, t, fk)
    ensures var changes := UpdatedRows(db, db.tables[t].schema.columns, assignments,
        Fetch(db, selection, Scan(db.tables[t].rows)));
            References(WithRows(db, t, WriteRows(db.tables[t].rows, changes), db.idCounter), t, fk)
  {
    hide UpdateAdmitted, References, SchemasOk, ChangesRefer, Scan, Fetch;
    var fetched := Fetch(db, selection, Scan(db.tables[t].rows));
    UpdateAdmits(db, t, assignments, selection);
    UpdateRefers(db, t, assignments, fetched, fk);
    WriteKeepsReferences(db, t, UpdatedRows(db, db.tables[t].schema.columns, assignments, fetched), db.idCounter, t,
      fk);
  }

  /** A row refers to the key through the foreign key. */
  predicate PointsTo(columns: seq<ColumnDef>, fk: ForeignKey, row: Row, k: Key) {
    var v := GetValue(columns, row, fk.referencingColumn);
    v.Some? && !v.value.Null? && ToKey(v.value) == Ok(k)
  }

  /** No row that stays points to a row that goes. */
  ghost predicate NoneLeftPointing(db: Database, t: string, selection: Option<Condition>, fk: ForeignKey)
    requires t in db.tables
  {
    var rows := db.tables[t].rows;
    forall k, l | k in rows && l in rows && Selects(db, selection, rows[k]) == Ok(true)
                  && Selects(db, selection, rows[l]) == Ok(false) ::
                     !PointsTo(db.tables[t].schema.columns, fk, rows[l], k)
  }

  ghost function AfterDelete(db: Database, t: string, selection: Option<Condition>): Database
    requires t in db.tables
  {
    WithRows(db, t, RemoveRows(db.tables[t].rows, KeysOnly(Fetch(db, selection, Scan(db.tables[t].rows)))),
      db.idCounter)
  }

  lemma SelfReferenceSurvives(db: Database, t: string, selection: Option<Condition>, fk: ForeignKey, l: Key)
    requires t in db.tables && Evaluable(db, selection, Scan(db.tables[t].rows))
    requires fk.referencedTable == t && References(db, t, fk) && NoneLeftPointing(db, t, selection, fk)
    requires l in AfterDelete(db, t, selection).tables[t].rows
    ensures RowRefers(AfterDelete(db, t, selection), db.tables[t].schema, fk,
        AfterDelete(db, t, selection).tables[t].rows[l])
  {
    hide Scan, Fetch, ToKey, Evaluable, RemoveRows;
    var rows := db.tables[t].rows;
    DeleteExact(db, rows, selection);
    SelectedKeys(db, rows, selection);
    assert RowRefers(db, db.tables[t].schema, fk, rows[l]);
    var v := GetValue(db.tables[t].schema.columns, rows[l], fk.referencingColumn).value;
    if !v.Null? {
      var k := ToKey(v).value;
      assert PointsTo(db.tables[t].schema.columns, fk, rows[l], k);
      assert k in rows;
      assert Selects(db, selection, rows[k]).Ok? && Selects(db, selection, rows[k]) != Ok(true);
      EitherWay(Selects(db, selection, rows[k]));
    }
  }

  /** DELETE does not look for references of a table to itself.  They survive exactly when no row that
    stays points to a row that goes. */
  lemma DeleteKeepsSelfReferencesExactlyWhen(db: Database, t: string, selection: Option<Condition>, fk: ForeignKey)
    requires t in db.tables && Evaluable(db, selection, Scan(db.tables[t].rows))
    requires fk.referencedTable == t && References(db, t, fk)
    ensures References(AfterDelete(db, t, selection), t, fk) <==> NoneLeftPointing(db, t, selection, fk)
  {
    hide Scan, Fetch, ToKey, Evaluable, RemoveRows;
    var rows, db' := db.tables[t].rows, AfterDelete(db, t, selection);
    DeleteExact(db, rows, selection);
    if NoneLeftPointing(db, t, selection, fk) {
      forall l | l in db'.tables[t].rows ensures RowRefers(db', db'.tables[t].schema, fk, db'.tables[t].rows[l]) {
        SelfReferenceSurvives(db, t, selection, fk, l);
      }
    }
    if References(db', t, fk) {
      forall k, l | k in rows && l in rows && Selects(db, selection, rows[k]) == Ok(true)
                    && Selects(db, selection, rows[l]) == Ok(false)
        ensures !PointsTo(db.tables[t].schema.columns, fk, rows[l], k)
      {
        assert RowRefers(db', db'.tables[t].schema, fk, db'.tables[t].rows[l]);
      }
    }
  }

  // An employee table whose `boss` refers to the same table, with one boss and one report.

  const EMPLOYEE_COLUMNS: seq<ColumnDef> := [
    ColumnDef("id", Int, false, Some(Unique(true)), Option.None),
    ColumnDef("boss", Int, true, Option.None, Option.None)]

  const BOSS_KEY := ForeignKey("boss", "employee", "id")

  const EMPLOYEES: map<Key, Row> := map[
    Key.I64(1) := [Value.I64(1), Value.Null],
    Key.I64(2) := [Value.I64(2), Value.I64(1)]]

  const COMPANY := Database(map["employee" := Table(Schema(EMPLOYEE_COLUMNS, [BOSS_KEY]), EMPLOYEES)], 0)

  function FireBoss(): Condition { (_: Database, row: Row) => Ok(row != [] && row[0] == Value.I64(1)) }

  lemma EmployeeColumns()
    ensures PrimaryKeyIndex(EMPLOYEE_COLUMNS) == Some(0)
    ensures ColumnIndex(EMPLOYEE_COLUMNS, "id") == Some(0)
    ensures ColumnIndex(EMPLOYEE_COLUMNS, "boss") == Some(1)
  {
    assert EMPLOYEE_COLUMNS[0].name == "id" && EMPLOYEE_COLUMNS[1].name == "boss";
    assert EMPLOYEE_COLUMNS[1..][0] == EMPLOYEE_COLUMNS[1];
    assert "id"[0] != "boss"[0];
  }

  lemma CompanySchema()
    ensures SchemasOk(COMPANY)
  {
    EmployeeColumns();
    var table := COMPANY.tables["employee"];
    assert "id"[0] != "boss"[0];
    assert ColumnsOk(EMPLOYEE_COLUMNS);
    assert ForeignKeyOk(COMPANY, table.schema, BOSS_KEY);
  }

  lemma EmployeeRowsOk()
    ensures RowsOk(Schema(EMPLOYEE_COLUMNS, [BOSS_KEY]), EMPLOYEES)
  {
    EmployeeColumns();
    var schema := Schema(EMPLOYEE_COLUMNS, [BOSS_KEY]);
    forall k | k in EMPLOYEES ensures RowOk(schema, EMPLOYEES[k]) && Keyed(EMPLOYEE_COLUMNS, k, EMPLOYEES[k]) {
      forall c | IsUnique(EMPLOYEE_COLUMNS, c) ensures Usable(EMPLOYEES[k], c) { assert c == 0; }
    }
  }

  lemma EmployeeKey(k: Key)
    requires k in EMPLOYEES
    ensures Usable(EMPLOYEES[k], 0) && KeyAt(EMPLOYEES[k], 0) == k
  {
  }

  lemma EmployeesOk()
    ensures TableOk(COMPANY.tables["employee"], 0)
  {
    EmployeeColumns();
    EmployeeRowsOk();
    hide RowsOk, KeyAt, Usable;
    forall c, k, l | IsUnique(EMPLOYEE_COLUMNS, c) && k in EMPLOYEES && l in EMPLOYEES && k != l
      ensures Usable(EMPLOYEES[k], c) && Usable(EMPLOYEES[l], c) && NoClash(EMPLOYEES[k], EMPLOYEES[l], c)
    {
      assert c == 0;
      EmployeeKey(k);
      EmployeeKey(l);
    }
  }

  lemma CompanyIsConsistent()
    ensures Consistent(COMPANY)
    ensures References(COMPANY, "employee", BOSS_KEY)
  {
    CompanySchema();
    EmployeesOk();
    EmployeeColumns();
    hide SchemasOk, TableOk;
  }

  lemma NobodyElseRefers()
    ensures Referencings(COMPANY, "employee") == {}
  {
  }

  lemma FireBossSelects()
    ensures forall row: Row :: Selects(COMPANY, Some(FireBoss()), row) == Ok(row != [] && row[0] == Value.I64(1))
    ensures forall scanned :: Evaluable(COMPANY, Some(FireBoss()), scanned)
  {
  }

  lemma ReportPointsToBoss()
    ensures PointsTo(EMPLOYEE_COLUMNS, BOSS_KEY, EMPLOYEES[Key.I64(2)], Key.I64(1))
  {
    EmployeeColumns();
  }

  lemma BossLeavesReportBehind()
    ensures !NoneLeftPointing(COMPANY, "employee", Some(FireBoss()), BOSS_KEY)
  {
    hide PointsTo, Selects;
    FireBossSelects();
    ReportPointsToBoss();
    var boss, report := EMPLOYEES[Key.I64(1)], EMPLOYEES[Key.I64(2)];
    assert Selects(COMPANY, Some(FireBoss()), boss) == Ok(true);
    assert Selects(COMPANY, Some(FireBoss()), report) == Ok(false);
    assert PointsTo(COMPANY.tables["employee"].schema.columns, BOSS_KEY, report, Key.I64(1));
  }

  lemma FiringIsAccepted(approx: (Value, Value) -> bool)
    ensures DeleteAccepts(approx, COMPANY, "employee", Some(FireBoss()))
  {
    hide Scan, Fetch, Selects, Evaluable;
    EmployeeColumns();
    NobodyElseRefers();
    FireBossSelects();
  }

  /** The source's own limit: firing the boss is accepted and leaves the report pointing nowhere. */
  lemma DeleteCanBreakSelfReference(approx: (Value, Value) -> bool)
    ensures Consistent(COMPANY) && References(COMPANY, "employee", BOSS_KEY)
    ensures DeleteAccepts(approx, COMPANY, "employee", Some(FireBoss()))
    ensures !References(AfterDelete(COMPANY, "employee", Some(FireBoss())), "employee", BOSS_KEY)
  {
    hide Scan, Consistent, References, NoneLeftPointing, DeleteAccepts, AfterDelete, Evaluable;
    CompanyIsConsistent();
    FiringIsAccepted(approx);
    FireBossSelects();
    BossLeavesReportBehind();
    DeleteKeepsSelfReferencesExactlyWhen(COMPANY, "employee", Some(FireBoss()), BOSS_KEY);
  }

  // Hiring two employees under one number.

  const HIRE: Row := [Value.I64(3), Value.Null]

  function HireTwice(): Source { Select((_: Database) => Ok([HIRE, HIRE])) }

  lemma HiresFit()
    ensures SourceRows(COMPANY, EMPLOYEE_COLUMNS, [], HireTwice()) == Ok([HIRE, HIRE])
    ensures ForeignKeysAccept(COMPANY, Schema(EMPLOYEE_COLUMNS, [BOSS_KEY]), [HIRE, HIRE])
  {
    EmployeeColumns();
    var rows := [HIRE, HIRE];
    assert forall row | row in rows :: FitsPrefix(EMPLOYEE_COLUMNS, row);
    assert forall i | 0 <= i < 2 :: GetValue(EMPLOYEE_COLUMNS, rows[i], "boss") == Some(Value.Null);
  }

  lemma HiresAreKeyed()
    ensures UnderPrimaryKey([HIRE, HIRE], 0) == [(Key.I64(3), HIRE), (Key.I64(3), HIRE)]
  {
    var rows := [HIRE, HIRE];
    assert rows[..1] == [HIRE] && rows[..1][..0] == [];
    assert UnderPrimaryKey(rows[..1], 0) == [(Key.I64(3), HIRE)];
  }

  lemma HiringIsAccepted(approx: (Value, Value) -> bool)
    ensures Accepts(approx, COMPANY, Insert("employee", [], HireTwice()))
    ensures ChangeOf(approx, COMPANY, Insert("employee", [], HireTwice()))
         == Write([(Key.I64(3), HIRE), (Key.I64(3), HIRE)])
  {
    EmployeeColumns();
    var table := COMPANY.tables["employee"];
    assert PrimaryKeyOnly(EMPLOYEE_COLUMNS, All) && LookupAccepts(table, 0, [HIRE, HIRE]);
    HiresFit();
    HiresAreKeyed();
    hide SourceRows, ForeignKeysAccept, UnderPrimaryKey;
  }

  /** An accepted batch that repeats a primary key: two rows are reported and one is added. */
  lemma RepeatedKeyAddsFewerRows(approx: (Value, Value) -> bool)
    ensures Consistent(COMPANY) && Accepts(approx, COMPANY, Insert("employee", [], HireTwice()))
    ensures var statement := Insert("employee", [], HireTwice());
            var change := ChangeOf(approx, COMPANY, statement);
            && PayloadOf(approx, COMPANY, statement) == Inserted(2)
            && CanApply(COMPANY, "employee", change, 2)
            && |EMPLOYEES| == 2 && |Apply(COMPANY, "employee", change, 2).tables["employee"].rows| == 3
  {
    hide Consistent, Accepts, ChangeOf;
    CompanyIsConsistent();
    HiringIsAccepted(approx);
    var changes := [(Key.I64(3), HIRE), (Key.I64(3), HIRE)];
    assert changes[..2] == changes && changes[..1][..0] == [];
    assert changes[..1] == [(Key.I64(3), HIRE)];
    assert WriteRows(EMPLOYEES, changes[..1]) == EMPLOYEES[Key.I64(3) := HIRE];
    assert WriteRows(EMPLOYEES, changes) == EMPLOYEES[Key.I64(3) := HIRE];
    assert EMPLOYEES.Keys == {Key.I64(1), Key.I64(2)};
    assert EMPLOYEES[Key.I64(3) := HIRE].Keys == {Key.I64(1), Key.I64(2), Key.I64(3)};
  }
}
