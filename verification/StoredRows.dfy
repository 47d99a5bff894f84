/** What an accepted statement stores, column by column, and exactly which statements are accepted
  (core/src/executor/insert.rs, core/src/executor/update.rs, core/src/executor/delete.rs). */
module StoredRows {
  import opened Data
  import opened Store
  import opened Validate
  import opened ResultRows
  import opened Dml
  import opened Integrity
  import opened Reachable
  import opened DmlFacts

  /** NULL only where the column is nullable, and otherwise a value of its type. */
  ghost predicate MayStand(v: Value, def: ColumnDef) {
    if v.Null? then def.nullable else GetType(v) == Some(def.dataType)
  }

  /** The expression, converted to the type of the column, gives this value, which may stand in it. */
  ghost predicate Gives(e: Scalar, def: ColumnDef, v: Value) { e(def.dataType) == Ok(v) && MayStand(v, def) }

  // ----- INSERT: one row -----

  ghost predicate DistinctColumns(defs: seq<ColumnDef>) {
    forall i, j | 0 <= i < j < |defs| :: defs[i].name != defs[j].name
  }

  /** The value at this place is meant for the column: by position, or at the first mention of its name. */
  ghost predicate MeantFor(defs: seq<ColumnDef>, names: seq<string>, values: seq<Scalar>, i: nat, k: nat)
    requires i < |defs|
  {
    k < |values| &&
    if names == [] then k == i
    else k < |names| && names[k] == defs[i].name && forall j | 0 <= j < k :: names[j] != defs[i].name
  }

  /** The value of one column: the given one, or else the default, or else NULL. */
  ghost predicate CellIs(defs: seq<ColumnDef>, names: seq<string>, values: seq<Scalar>, i: nat, v: Value)
    requires i < |defs|
  {
    if exists k: nat :: MeantFor(defs, names, values, i, k)
    then exists k: nat :: MeantFor(defs, names, values, i, k) && Gives(values[k], defs[i], v)
    else if defs[i].default.Some? then Gives(defs[i].default.value, defs[i], v)
    else v.Null? && defs[i].nullable
  }

  ghost predicate HasColumn(defs: seq<ColumnDef>, name: string) { exists i | 0 <= i < |defs| :: defs[i].name == name }

  /** There is a value for each named column, all of them exist, and the row holds the values. */
  ghost predicate RowIs(defs: seq<ColumnDef>, names: seq<string>, values: seq<Scalar>, row: Row) {
    && (names != [] ==> |values| == |names|) && |values| <= |defs|
    && (forall k | 0 <= k < |names| :: HasColumn(defs, names[k]))
    && |row| == |defs| && forall i | 0 <= i < |defs| :: CellIs(defs, names, values, i, row[i])
  }

  lemma {:induction false} FoundFirst(names: seq<string>, values: seq<Scalar>, name: string, k: nat)
    requires k < |names| && k < |values| && names[k] == name && forall j | 0 <= j < k :: names[j] != name
    ensures FindValue(names, values, name) == Some(values[k])
  {
    if k > 0 { FoundFirst(names[1..], values[1..], name, k - 1); }
  }

  lemma {:induction false} FoundNone(names: seq<string>, values: seq<Scalar>, name: string)
    requires forall k | 0 <= k < |names| && k < |values| :: names[k] != name
    ensures FindValue(names, values, name).None?
  {
    if names != [] && values != [] { FoundNone(names[1..], values[1..], name); }
  }

  lemma {:induction false} FirstMention(names: seq<string>, name: string, k: nat) returns (j: nat)
    requires k < |names| && names[k] == name
    ensures j <= k && names[j] == name && forall i | 0 <= i < j :: names[i] != name
  {
    j := 0;
    while names[j] != name
      invariant j <= k && forall i | 0 <= i < j :: names[i] != name
      decreases k - j
    {
      j := j + 1;
    }
  }

  /** What `find` finds is the value meant for the column. */
  lemma FoundIsMeant(defs: seq<ColumnDef>, names: seq<string>, values: seq<Scalar>, i: nat)
    requires DistinctColumns(defs) && i < |defs| && |values| <= |defs| && (names != [] ==> |values| == |names|)
    ensures var found := FindValue(if names == [] then ColumnNames(defs) else names, values, defs[i].name);
            && (found.Some? <==> exists k: nat :: MeantFor(defs, names, values, i, k))
            && forall k: nat | MeantFor(defs, names, values, i, k) :: found == Some(values[k])
  {
    var all := if names == [] then ColumnNames(defs) else names;
    forall k: nat | MeantFor(defs, names, values, i, k)
      ensures FindValue(all, values, defs[i].name) == Some(values[k])
    {
      FoundFirst(all, values, defs[i].name, k);
    }
    if forall k: nat :: !MeantFor(defs, names, values, i, k) {
      forall k | 0 <= k < |all| && k < |values| ensures all[k] != defs[i].name {
        if all[k] == defs[i].name {
          var j := FirstMention(all, defs[i].name, k);
          assert MeantFor(defs, names, values, i, j);
        }
      }
      FoundNone(all, values, defs[i].name);
    }
  }

  lemma ConvertsExactlyWhen(e: Scalar, def: ColumnDef, v: Value)
    ensures Convert(e, def) == Ok(v) <==> Gives(e, def, v)
  {
  }

  lemma CellFilledExactlyWhen(defs: seq<ColumnDef>, names: seq<string>, values: seq<Scalar>, i: nat, v: Value)
    requires DistinctColumns(defs) && i < |defs| && |values| <= |defs| && (names != [] ==> |values| == |names|)
    ensures FillColumn(defs[i], if names == [] then ColumnNames(defs) else names, values) == Ok(v)
            <==> CellIs(defs, names, values, i, v)
  {
    hide Convert, Gives, FindValue;
    FoundIsMeant(defs, names, values, i);
    if exists k: nat :: MeantFor(defs, names, values, i, k) {
      var k: nat :| MeantFor(defs, names, values, i, k);
      ConvertsExactlyWhen(values[k], defs[i], v);
      OnlyOneMeant(defs, names, values, i);
    } else if defs[i].default.Some? {
      ConvertsExactlyWhen(defs[i].default.value, defs[i], v);
    }
  }

  lemma OnlyOneMeant(defs: seq<ColumnDef>, names: seq<string>, values: seq<Scalar>, i: nat)
    requires i < |defs|
    ensures forall j: nat, k: nat | MeantFor(defs, names, values, i, j) && MeantFor(defs, names, values, i, k) :: j == k
  {
  }

  lemma {:induction false} ColumnsFilledExactlyWhen(
      defs: seq<ColumnDef>, names: seq<string>, values: seq<Scalar>, row: Row)
    ensures FillColumns(defs, names, values) == Ok(row) <==>
              |row| == |defs| && forall i | 0 <= i < |defs| :: FillColumn(defs[i], names, values) == Ok(row[i])
  {
    hide FillColumn;
    if defs != [] && |row| == |defs| && forall i | 0 <= i < |defs| :: FillColumn(defs[i], names, values) == Ok(row[i]) {
      assert forall i | 0 <= i < |defs| - 1 :: defs[1..][i] == defs[i + 1] && row[1..][i] == row[i + 1];
      ColumnsFilledExactlyWhen(defs[1..], names, values, row[1..]);
      assert row == [row[0]] + row[1..];
    }
  }

  lemma KnownName(defs: seq<ColumnDef>, name: string)
    ensures name in ColumnNames(defs) <==> HasColumn(defs, name)
  {
    if HasColumn(defs, name) {
      var i :| 0 <= i < |defs| && defs[i].name == name;
      assert ColumnNames(defs)[i] == name;
    }
  }

  /** One list of VALUES builds this row exactly when the row holds, column by column, the value given
    for it, or else the default, or else NULL.  There is no such row exactly when the list fails. */
  lemma FilledExactlyWhen(defs: seq<ColumnDef>, names: seq<string>, values: seq<Scalar>, row: Row)
    requires DistinctColumns(defs)
    ensures FillValues(defs, names, values) == Ok(row) <==> RowIs(defs, names, values, row)
  {
    hide FillColumn, FillColumns, CellIs, HasColumn, ColumnNames;
    forall k | 0 <= k < |names| ensures names[k] in ColumnNames(defs) <==> HasColumn(defs, names[k]) {
      KnownName(defs, names[k]);
    }
    if (names != [] ==> |values| == |names|) && |values| <= |defs| {
      ColumnsFilledExactlyWhen(defs, if names == [] then ColumnNames(defs) else names, values, row);
      forall i | 0 <= i < |defs| && |row| == |defs|
        ensures FillColumn(defs[i], if names == [] then ColumnNames(defs) else names, values) == Ok(row[i])
                <==> CellIs(defs, names, values, i, row[i])
      {
        CellFilledExactlyWhen(defs, names, values, i, row[i]);
      }
    }
  }

  // ----- INSERT: the statement -----

  ghost predicate RowsAre(defs: seq<ColumnDef>, names: seq<string>, lists: seq<seq<Scalar>>, rows: seq<Row>) {
    |rows| == |lists| && forall i | 0 <= i < |lists| :: RowIs(defs, names, lists[i], rows[i])
  }

  lemma {:induction false} AllFilledExactlyWhen(
      defs: seq<ColumnDef>, names: seq<string>, lists: seq<seq<Scalar>>, rows: seq<Row>)
    requires DistinctColumns(defs)
    ensures FillAll(defs, names, lists) == Ok(rows) <==> RowsAre(defs, names, lists, rows)
  {
    hide FillValues, RowIs;
    if lists != [] {
      if |rows| == |lists| {
        FilledExactlyWhen(defs, names, lists[0], rows[0]);
        AllFilledExactlyWhen(defs, names, lists[1..], rows[1..]);
        assert rows == [rows[0]] + rows[1..];
        assert RowsAre(defs, names, lists, rows) <==>
          RowIs(defs, names, lists[0], rows[0]) && RowsAre(defs, names, lists[1..], rows[1..]) by {
          RowsAreFirst(defs, names, lists, rows);
        }
      }
    }
  }

  lemma RowsAreFirst(defs: seq<ColumnDef>, names: seq<string>, lists: seq<seq<Scalar>>, rows: seq<Row>)
    requires lists != [] && |rows| == |lists|
    ensures RowsAre(defs, names, lists, rows) <==>
              RowIs(defs, names, lists[0], rows[0]) && RowsAre(defs, names, lists[1..], rows[1..])
  {
    hide RowIs;
    if RowIs(defs, names, lists[0], rows[0]) && RowsAre(defs, names, lists[1..], rows[1..]) {
      forall i | 0 <= i < |lists| ensures RowIs(defs, names, lists[i], rows[i]) {
        if i > 0 { assert lists[1..][i - 1] == lists[i] && rows[1..][i - 1] == rows[i]; }
      }
    }
  }

  /** The rows of the source: the lists of VALUES in the window, or the selected rows, all fitting as far
    as row and schema reach. */
  ghost predicate SourceIs(db: Database, defs: seq<ColumnDef>, names: seq<string>, source: Source, rows: seq<Row>) {
    match source
    case Values(list, limit, offset) => RowsAre(defs, names, ApplyLimit(list, limit, offset), rows)
    case Select(query) =>
      query(db) == Ok(rows) &&
      forall i, c | 0 <= i < |rows| && 0 <= c < |rows[i]| && c < |defs| :: MayStand(rows[i][c], defs[c])
  }

  lemma SourceIsExactlyWhen(db: Database, defs: seq<ColumnDef>, names: seq<string>, source: Source, rows: seq<Row>)
    requires DistinctColumns(defs)
    ensures SourceRows(db, defs, names, source) == Ok(rows) <==> SourceIs(db, defs, names, source, rows)
  {
    hide FillAll, RowsAre, ApplyLimit;
    match source
    case Values(list, limit, offset) => AllFilledExactlyWhen(defs, names, ApplyLimit(list, limit, offset), rows);
    case Select(query) =>
      assert (forall row | row in rows :: FitsPrefix(defs, row)) <==>
             forall i | 0 <= i < |rows| :: FitsPrefix(defs, rows[i]);
      forall i | 0 <= i < |rows|
        ensures FitsPrefix(defs, rows[i]) <==>
                forall c | 0 <= c < |rows[i]| && c < |defs| :: MayStand(rows[i][c], defs[c]) {}
  }

  /** `at` lists in order exactly the rows that have the primary-key column. */
  ghost predicate ListsKeyed(at: seq<nat>, rows: seq<Row>, p: nat) {
    && (forall i, j | 0 <= i < j < |at| :: at[i] < at[j])
    && (forall i | 0 <= i < |at| :: at[i] < |rows| && p < |rows[at[i]]|)
    && forall i: nat | i < |rows| && p < |rows[i]| :: i in at
  }

  lemma ListsKeyedAppend(at: seq<nat>, rows: seq<Row>, p: nat, row: Row)
    requires ListsKeyed(at, rows, p)
    ensures ListsKeyed(if p < |row| then at + [|rows|] else at, rows + [row], p)
  {
    if p < |row| {
      var more := at + [|rows|];
      assert more[|at|] == |rows|;
      forall i: nat | i < |rows| && p < |rows[i]| ensures i in more {
        var k :| 0 <= k < |at| && at[k] == i;
        assert more[k] == i;
      }
    }
  }

  /** The changes write the rows at these places, each under its primary key. */
  ghost predicate WritesKeyed(changes: seq<(Key, Row)>, rows: seq<Row>, at: seq<nat>, p: nat) {
    |changes| == |at| && forall i | 0 <= i < |at| ::
      at[i] < |rows| && p < |rows[at[i]]| && ToKey(rows[at[i]][p]) == Ok(changes[i].0) && changes[i].1 == rows[at[i]]
  }

  lemma WritesKeyedAppend(changes: seq<(Key, Row)>, rows: seq<Row>, at: seq<nat>, p: nat, row: Row)
    requires WritesKeyed(changes, rows, at, p)
    ensures WritesKeyed(changes, rows + [row], at, p)
    ensures p < |row| && ToKey(row[p]).Ok? ==>
              WritesKeyed(changes + [(ToKey(row[p]).value, row)], rows + [row], at + [|rows|], p)
  {
    hide ToKey;
  }

  lemma NothingKeyed(p: nat)
    ensures ListsKeyed([], [], p) && WritesKeyed([], [], [], p)
  {
  }

  lemma {:induction false} KeyedRows(rows: seq<Row>, p: nat) returns (at: seq<nat>)
    requires Keyable(rows, p)
    ensures ListsKeyed(at, rows, p) && WritesKeyed(UnderPrimaryKey(rows, p), rows, at, p)
  {
    hide ToKey, ListsKeyed, WritesKeyed;
    if rows == [] {
      at := [];
      NothingKeyed(p);
    } else {
      var n := |rows| - 1;
      at := KeyedRows(rows[..n], p);
      var init := UnderPrimaryKey(rows[..n], p);
      ListsKeyedAppend(at, rows[..n], p, rows[n]);
      WritesKeyedAppend(init, rows[..n], at, p, rows[n]);
      assert rows == rows[..n] + [rows[n]];
      if p < |rows[n]| {
        at := at + [n];
      } else {
        assert init + [] == init;
      }
    }
  }

  /** INSERT is accepted exactly when its source has rows, these pass the uniqueness check and refer to
    stored rows.  It writes them in order, each under its own primary key or under generated keys, and
    reports how many it writes. */
  lemma InsertWrites(
      approx: (Value, Value) -> bool, db: Database, t: string, names: seq<string>, source: Source, rows: seq<Row>)
    returns (at: seq<nat>)
    requires t in db.tables && DistinctColumns(db.tables[t].schema.columns)
    requires SourceIs(db, db.tables[t].schema.columns, names, source, rows)
    ensures var table := db.tables[t];
            InsertAccepts(db, t, names, source) <==>
              BatchAccepts(table, All, rows) && ForeignKeysAccept(db, table.schema, rows)
    ensures InsertAccepts(db, t, names, source) ==>
              var s := Insert(t, names, source);
              var change := ChangeOf(approx, db, s);
              match PrimaryKeyIndex(db.tables[t].schema.columns)
              case None => change == Append(rows) && PayloadOf(approx, db, s) == Inserted(|rows|)
              case Some(p) =>
                && ListsKeyed(at, rows, p) && change.Write? && WritesKeyed(change.rows, rows, at, p)
                && PayloadOf(approx, db, s) == Inserted(|at|)
  {
    hide SourceRows, BatchAccepts, ForeignKeysAccept, ToKey, SourceIs;
    var table := db.tables[t];
    SourceIsExactlyWhen(db, table.schema.columns, names, source, rows);
    at := [];
    if InsertAccepts(db, t, names, source) {
      match PrimaryKeyIndex(table.schema.columns) {
        case None =>
        case Some(p) =>
          AcceptedRowsAreKeyable(table, rows);
          at := KeyedRows(rows, p);
      }
    }
  }

  /** Without rows of the source INSERT is refused. */
  lemma InsertNeedsRows(db: Database, t: string, names: seq<string>, source: Source)
    requires t in db.tables && DistinctColumns(db.tables[t].schema.columns)
    requires forall rows :: !SourceIs(db, db.tables[t].schema.columns, names, source, rows)
    ensures !InsertAccepts(db, t, names, source)
  {
    hide SourceRows, SourceIs;
    var rows := SourceRows(db, db.tables[t].schema.columns, names, source);
    if rows.Ok? { SourceIsExactlyWhen(db, db.tables[t].schema.columns, names, source, rows.value); }
  }

  // ----- UPDATE -----

  /** The value is NULL or the primary key of a row of the referenced table. */
  ghost predicate Referred(db: Database, fk: ForeignKey, v: Value) {
    v.Null? || exists k ::
      ToKey(v) == Ok(k) && fk.referencedTable in db.tables && k in db.tables[fk.referencedTable].rows
  }

  /** The assignment is to a column of the table, and its value exists, may stand there and refers. */
  ghost predicate AssignmentIsGood(db: Database, schema: Schema, a: Assignment, row: Row) {
    exists c | 0 <= c < |schema.columns| :: schema.columns[c].name == a.id &&
      var v := (a.value)(db, row, schema.columns[c].dataType);
      && v.Ok? && MayStand(v.value, schema.columns[c])
      && forall fk | fk in schema.foreignKeys && fk.referencingColumn == a.id :: Referred(db, fk, v.value)
  }

  lemma NamedColumn(columns: seq<ColumnDef>, c: nat)
    requires DistinctColumns(columns) && c < |columns|
    ensures ColumnIndex(columns, columns[c].name) == Some(c)
  {
  }

  lemma RefersExactlyWhen(db: Database, fk: ForeignKey, v: Value)
    ensures Refers(db, fk, v) <==> Referred(db, fk, v)
  {
    hide ToKey;
    if ToKey(v).Ok? { assert ToKey(v) == Ok(ToKey(v).value); }
  }

  /** A row is accepted exactly when all assignments are good on it. */
  lemma RowAcceptedExactlyWhen(db: Database, schema: Schema, assignments: seq<Assignment>, row: Row)
    requires DistinctColumns(schema.columns)
    ensures RowAccepts(db, schema, assignments, row) <==>
              forall j | 0 <= j < |assignments| :: AssignmentIsGood(db, schema, assignments[j], row)
  {
    hide Refers, Referred;
    forall j | 0 <= j < |assignments|
      ensures AssignmentAccepts(db, schema, assignments[j], row) <==>
              AssignmentIsGood(db, schema, assignments[j], row)
    {
      var a := assignments[j];
      forall fk, v | fk in schema.foreignKeys ensures Refers(db, fk, v) <==> Referred(db, fk, v) {
        RefersExactlyWhen(db, fk, v);
      }
      forall c | 0 <= c < |schema.columns| && schema.columns[c].name == a.id
        ensures ColumnIndex(schema.columns, a.id) == Some(c)
      {
        NamedColumn(schema.columns, c);
      }
    }
  }

  /** The first assignment to the column. */
  ghost predicate FirstAssignment(columns: seq<ColumnDef>, assignments: seq<Assignment>, c: nat, j: nat)
    requires c < |columns|
  {
    && j < |assignments| && assignments[j].id == columns[c].name
    && forall i | 0 <= i < j :: assignments[i].id != columns[c].name
  }

  lemma {:induction false} FirstAssignmentGives(
      db: Database, columns: seq<ColumnDef>, assignments: seq<Assignment>, row: Row, name: string, v: Value, j: nat)
    requires j < |assignments| && assignments[j].id == name && forall i | 0 <= i < j :: assignments[i].id != name
    requires AssignedValue(db, columns, assignments[j], row).Ok?
    ensures NewValue(db, columns, assignments, row, name, v)
         == AssignedValue(db, columns, assignments[j], row).value
  {
    hide AssignedValue;
    if j > 0 { FirstAssignmentGives(db, columns, assignments[1..], row, name, v, j - 1); }
  }

  /** The new row, column by column: what the first assignment to the column gives on the old row, or
    else the old value. */
  lemma UpdatedCell(db: Database, schema: Schema, assignments: seq<Assignment>, row: Row, c: nat)
    requires DistinctColumns(schema.columns) && c < |row| && c < |schema.columns|
    requires forall j | 0 <= j < |assignments| :: AssignmentIsGood(db, schema, assignments[j], row)
    ensures var updated := UpdatedRow(db, schema.columns, assignments, row);
            && (forall j: nat | FirstAssignment(schema.columns, assignments, c, j) ::
                  (assignments[j].value)(db, row, schema.columns[c].dataType) == Ok(updated[c]))
            && ((forall j: nat :: !FirstAssignment(schema.columns, assignments, c, j)) ==> updated[c] == row[c])
  {
    hide NewValue, UpdatedRow, AssignmentIsGood;
    CellIsNewValue(db, schema.columns, assignments, row, c);
    forall j: nat | FirstAssignment(schema.columns, assignments, c, j)
      ensures (assignments[j].value)(db, row, schema.columns[c].dataType)
        == Ok(NewValue(db, schema.columns, assignments, row, schema.columns[c].name, row[c]))
    {
      AssignedCell(db, schema, assignments, row, c, j);
    }
    if forall j: nat :: !FirstAssignment(schema.columns, assignments, c, j) {
      UnassignedCell(db, schema.columns, assignments, row, c);
    }
  }

  lemma CellIsNewValue(db: Database, columns: seq<ColumnDef>, assignments: seq<Assignment>, row: Row, c: nat)
    requires c < |row| && c < |columns|
    ensures UpdatedRow(db, columns, assignments, row)[c]
         == NewValue(db, columns, assignments, row, columns[c].name, row[c])
  {
    hide NewValue;
  }

  lemma AssignedCell(db: Database, schema: Schema, assignments: seq<Assignment>, row: Row, c: nat, j: nat)
    requires DistinctColumns(schema.columns) && c < |row| && c < |schema.columns|
    requires FirstAssignment(schema.columns, assignments, c, j)
    requires AssignmentIsGood(db, schema, assignments[j], row)
    ensures (assignments[j].value)(db, row, schema.columns[c].dataType)
         == Ok(NewValue(db, schema.columns, assignments, row, schema.columns[c].name, row[c]))
  {
    hide NewValue;
    var columns := schema.columns;
    NamedColumn(columns, c);
    FirstAssignmentGives(db, columns, assignments, row, columns[c].name, row[c], j);
  }

  lemma FirstOfAssignments(columns: seq<ColumnDef>, assignments: seq<Assignment>, c: nat, j: nat) returns (i: nat)
    requires c < |columns| && j < |assignments| && assignments[j].id == columns[c].name
    ensures FirstAssignment(columns, assignments, c, i)
  {
    i := FirstMention(Ids(assignments), columns[c].name, j);
    assert forall k | 0 <= k < |assignments| :: Ids(assignments)[k] == assignments[k].id;
  }

  lemma UnassignedCell(db: Database, columns: seq<ColumnDef>, assignments: seq<Assignment>, row: Row, c: nat)
    requires c < |row| && c < |columns|
    requires forall j: nat :: !FirstAssignment(columns, assignments, c, j)
    ensures NewValue(db, columns, assignments, row, columns[c].name, row[c]) == row[c]
  {
    hide NewValue;
    var name := columns[c].name;
    forall j | 0 <= j < |assignments| ensures assignments[j].id != name {
      if assignments[j].id == name { var i := FirstOfAssignments(columns, assignments, c, j); }
    }
    NewValueUnassigned(db, columns, assignments, row, name, row[c]);
  }

  // ----- the stores after UPDATE and DELETE -----

  /** The WHERE clause is true on the row. */
  ghost predicate Chosen(db: Database, selection: Option<Condition>, row: Row) {
    selection.None? || (selection.value)(db, row) == Ok(true)
  }

  lemma ChosenExactlyWhen(db: Database, selection: Option<Condition>, row: Row)
    ensures Selects(db, selection, row) == Ok(true) <==> Chosen(db, selection, row)
  {
  }

  /** The cell holds what the first assignment to its column gives on the old row, or the old value. */
  ghost predicate CellUpdated(
      db: Database, columns: seq<ColumnDef>, assignments: seq<Assignment>, row: Row, c: nat, v: Value)
    requires c < |row| && c < |columns|
  {
    && (forall j: nat | FirstAssignment(columns, assignments, c, j) ::
          (assignments[j].value)(db, row, columns[c].dataType) == Ok(v))
    && ((forall j: nat :: !FirstAssignment(columns, assignments, c, j)) ==> v == row[c])
  }

  /** The row as long as the shorter of row and schema, with updated cells. */
  ghost predicate RowUpdated(
      db: Database, columns: seq<ColumnDef>, assignments: seq<Assignment>, row: Row, updated: Row)
  {
    && |updated| == (if |row| <= |columns| then |row| else |columns|)
    && forall c | 0 <= c < |updated| :: CellUpdated(db, columns, assignments, row, c, updated[c])
  }

  lemma UpdatedRowIs(db: Database, schema: Schema, assignments: seq<Assignment>, row: Row)
    requires DistinctColumns(schema.columns) && RowAccepts(db, schema, assignments, row)
    ensures RowUpdated(db, schema.columns, assignments, row, UpdatedRow(db, schema.columns, assignments, row))
  {
    hide UpdatedRow, RowAccepts, AssignmentIsGood, FirstAssignment;
    RowAcceptedExactlyWhen(db, schema, assignments, row);
    var updated := UpdatedRow(db, schema.columns, assignments, row);
    forall c | 0 <= c < |updated| ensures CellUpdated(db, schema.columns, assignments, row, c, updated[c]) {
      UpdatedCell(db, schema, assignments, row, c);
    }
  }

  /** An accepted UPDATE, carried out: the same keys; rows that are not chosen as before; chosen rows with
    exactly their assigned columns replaced; all other tables as before. */
  lemma UpdateStores(
      approx: (Value, Value) -> bool, db: Database, t: string, assignments: seq<Assignment>,
      selection: Option<Condition>, k: Key)
    requires UpdateAccepts(db, t, assignments, selection) && DistinctColumns(db.tables[t].schema.columns)
    ensures var s := Update(t, assignments, selection);
            var change := ChangeOf(approx, db, s);
            && CanApply(db, t, change, Size(change))
            && var db' := Apply(db, t, change, Size(change));
            && db'.tables.Keys == db.tables.Keys
            && (forall u | u in db.tables && u != t :: db'.tables[u] == db.tables[u])
            && var rows, after := db.tables[t].rows, db'.tables[t].rows;
            && (k in after <==> k in rows)
            && (k in rows ==>
                  if Chosen(db, selection, rows[k])
                  then RowUpdated(db, db.tables[t].schema.columns, assignments, rows[k], after[k])
                  else after[k] == rows[k])
  {
    hide Scan, Fetch, UpdatedRow, WriteRows, RowAccepts, BatchAccepts, RowUpdated, Selects, Chosen, Assignable;
    var table := db.tables[t];
    var changes := ChangeOf(approx, db, Update(t, assignments, selection)).rows;
    assert changes[..|changes|] == changes;
    UpdateFrame(db, t, assignments, selection, k);
    if k in table.rows {
      ChosenExactlyWhen(db, selection, table.rows[k]);
      if Selects(db, selection, table.rows[k]) == Ok(true) {
        ChosenRowIsAccepted(db, t, assignments, selection, k);
        UpdatedRowIs(db, table.schema, assignments, table.rows[k]);
      }
    }
  }

  lemma ChosenRowIsAccepted(
      db: Database, t: string, assignments: seq<Assignment>, selection: Option<Condition>, k: Key)
    requires UpdateAccepts(db, t, assignments, selection)
    requires k in db.tables[t].rows && Selects(db, selection, db.tables[t].rows[k]) == Ok(true)
    ensures RowAccepts(db, db.tables[t].schema, assignments, db.tables[t].rows[k])
  {
    hide Scan, Fetch, RowAccepts, BatchAccepts, Selects, Assignable;
    var j := ScanIndex(db.tables[t].rows, k);
    var i := FetchComplete(db, selection, Scan(db.tables[t].rows), j);
  }

  /** An accepted DELETE, carried out: exactly the rows that are not chosen, as before, and all other
    tables as before; it reports how many rows were chosen. */
  lemma DeleteStores(
      approx: (Value, Value) -> bool, db: Database, t: string, selection: Option<Condition>)
    requires DeleteAccepts(approx, db, t, selection)
    ensures var s := Delete(t, selection);
            var change := ChangeOf(approx, db, s);
            && CanApply(db, t, change, Size(change))
            && var db' := Apply(db, t, change, Size(change));
            && db'.tables.Keys == db.tables.Keys
            && (forall u | u in db.tables && u != t :: db'.tables[u] == db.tables[u])
            && var rows, after := db.tables[t].rows, db'.tables[t].rows;
            && (forall k :: k in after <==> k in rows && !Chosen(db, selection, rows[k]))
            && (forall k | k in after :: after[k] == rows[k])
            && PayloadOf(approx, db, s) == Deleted(|set k | k in rows && Chosen(db, selection, rows[k])|)
  {
    hide Scan, Fetch, Selects, Chosen, Deletable;
    var rows := db.tables[t].rows;
    DeleteExact(db, rows, selection);
    SelectedCount(db, rows, selection);
    forall k | k in rows
      ensures Selects(db, selection, rows[k]) == Ok(true) <==> Chosen(db, selection, rows[k])
      ensures Selects(db, selection, rows[k]) == Ok(false) <==> !Chosen(db, selection, rows[k])
    {
      ChosenExactlyWhen(db, selection, rows[k]);
      SelectedKeys(db, rows, selection);
      EitherWay(Selects(db, selection, rows[k]));
    }
    var keys := ChangeOf(approx, db, Delete(t, selection)).keys;
    assert keys[..|keys|] == keys;
    assert (set k | k in rows && Selects(db, selection, rows[k]) == Ok(true))
      == set k | k in rows && Chosen(db, selection, rows[k]);
  }

  // ----- which DELETE is accepted -----

  /** A row of another table refers to the row under this key. */
  ghost predicate PointedAt(db: Database, t: string, k: Key) {
    exists u, fk, l | u in db.tables && u != t && fk in db.tables[u].schema.foreignKeys && fk.referencedTable == t &&
        l in db.tables[u].rows ::
      PointsTo(db.tables[u].schema.columns, fk, db.tables[u].rows[l], k)
  }

  lemma KeysHaveKeyTypes(v: Value, t: DataType)
    requires GetType(v) == Some(t) && ToKey(v).Ok? && !IsFloat(t)
    ensures KeyType(t)
  {
  }

  /** Comparing a referencing value with a primary key of the same type tells whether it is that key. */
  lemma MentionedExactlyWhen(approx: (Value, Value) -> bool, w: Value, v: Value, t: DataType, k: Key)
    requires GetType(v) == Some(t) && ToKey(v) == Ok(k) && !IsFloat(t) && (w.Null? || GetType(w) == Some(t))
    ensures EvaluateEq(approx, w, v) == Tribool.True <==> !w.Null? && ToKey(w) == Ok(k)
  {
    hide GetType, ToKey, EvaluateEq;
    if w.Null? {
      NullIsUnequal(approx, v);
    } else {
      KeysHaveKeyTypes(v, t);
      KeysOfKeyType(w, t);
      OneTypeEq(approx, w, v);
      KeysInjective(w, v);
    }
  }

  lemma NullIsUnequal(approx: (Value, Value) -> bool, v: Value)
    ensures EvaluateEq(approx, Value.Null, v) == Tribool.Null
  {
  }

  lemma StoredReference(db: Database, u: string, fk: ForeignKey, l: Key)
    requires Consistent(db) && u in db.tables && l in db.tables[u].rows && fk in db.tables[u].schema.foreignKeys
    ensures fk.referencedTable in db.tables
    ensures var p := PrimaryKeyIndex(db.tables[fk.referencedTable].schema.columns);
            var w := GetValue(db.tables[u].schema.columns, db.tables[u].rows[l], fk.referencingColumn);
            && p.Some? && w.Some?
            && ColumnIndex(db.tables[fk.referencedTable].schema.columns, fk.referencedColumn) == p
            && (w.value.Null? ||
                GetType(w.value) == Some(db.tables[fk.referencedTable].schema.columns[p.value].dataType))
  {
    hide GetType, ColumnsOk, ForeignKeysHold, Usable, IsUnique, Uniqueness, GeneratedKeys, Integrity.Keyed;
    var schema, row := db.tables[u].schema, db.tables[u].rows[l];
    assert ForeignKeyOk(db, schema, fk);
    assert TableOk(db.tables[u], db.idCounter);
    assert RowOk(schema, row);
    var i := ColumnIndex(schema.columns, fk.referencingColumn).value;
    FitsColumn(schema, row, i);
  }

  lemma ReferenceMentionsExactlyWhen(
      approx: (Value, Value) -> bool, db: Database, t: string, k: Key, u: string, fk: ForeignKey, l: Key)
    requires Consistent(db) && t in db.tables && k in db.tables[t].rows && u in db.tables && l in db.tables[u].rows
    requires fk in db.tables[u].schema.foreignKeys && fk.referencedTable == t
    ensures var v := GetValue(db.tables[t].schema.columns, db.tables[t].rows[k], fk.referencedColumn);
            && v.Some?
            && (Mentions(approx, db.tables[u].schema.columns, db.tables[u].rows[l], fk.referencingColumn, v.value)
                == Ok(false)
                <==> !PointsTo(db.tables[u].schema.columns, fk, db.tables[u].rows[l], k))
  {
    StoredReference(db, u, fk, l);
    ConsistentTable(db, t);
    var p := PrimaryKeyIndex(db.tables[t].schema.columns).value;
    StoredPrimaryKey(db, t, k, p);
    var row := db.tables[t].rows[k];
    StoredKeyType(db, t, k, p);
    hide Consistent, ColumnsOk, RowsOk, TableOk, GetType, ToKey, EvaluateEq;
    var w := GetValue(db.tables[u].schema.columns, db.tables[u].rows[l], fk.referencingColumn).value;
    MentionedExactlyWhen(approx, w, row[p], db.tables[t].schema.columns[p].dataType, k);
  }

  lemma StoredKeyType(db: Database, t: string, k: Key, p: nat)
    requires t in db.tables && ColumnsOk(db.tables[t].schema.columns) && RowsOk(db.tables[t].schema, db.tables[t].rows)
    requires PrimaryKeyIndex(db.tables[t].schema.columns) == Some(p) && k in db.tables[t].rows
    requires p < |db.tables[t].rows[k]|
    ensures GetType(db.tables[t].rows[k][p]) == Some(db.tables[t].schema.columns[p].dataType)
    ensures !IsFloat(db.tables[t].schema.columns[p].dataType)
  {
    hide GetType, RowOk, Integrity.Keyed;
    var schema, row := db.tables[t].schema, db.tables[t].rows[k];
    assert RowOk(schema, row);
    assert schema.columns[p].unique == Some(Unique(true)) && !schema.columns[p].nullable;
    FitsColumn(schema, row, p);
  }

  /** In a consistent store a row may be deleted exactly when no row of another table refers to it. */
  lemma DeletableExactlyWhen(approx: (Value, Value) -> bool, db: Database, t: string, k: Key)
    requires Consistent(db) && t in db.tables && k in db.tables[t].rows
    ensures Deletable(approx, db, t, db.tables[t].rows[k]) <==> !PointedAt(db, t, k)
  {
    hide Consistent, PointsTo, Mentions, GetValue;
    var row := db.tables[t].rows[k];
    forall u, fk, l | (u, fk) in Referencings(db, t) && l in db.tables[u].rows
      ensures var v := GetValue(db.tables[t].schema.columns, row, fk.referencedColumn);
              && v.Some?
              && (Mentions(approx, db.tables[u].schema.columns, db.tables[u].rows[l], fk.referencingColumn, v.value)
                  == Ok(false)
                  <==> !PointsTo(db.tables[u].schema.columns, fk, db.tables[u].rows[l], k))
    {
      ReferenceMentionsExactlyWhen(approx, db, t, k, u, fk, l);
    }
    forall u, fk | (u, fk) in Referencings(db, t)
      ensures GetValue(db.tables[t].schema.columns, row, fk.referencedColumn).Some?
    {
      ReferencedColumnIsStored(db, t, k, u, fk);
    }
    if PointedAt(db, t, k) {
      var u, fk, l :| u in db.tables && u != t && fk in db.tables[u].schema.foreignKeys && fk.referencedTable == t &&
        l in db.tables[u].rows && PointsTo(db.tables[u].schema.columns, fk, db.tables[u].rows[l], k);
      assert (u, fk) in Referencings(db, t);
    }
  }

  lemma ReferencedColumnIsStored(db: Database, t: string, k: Key, u: string, fk: ForeignKey)
    requires Consistent(db) && t in db.tables && k in db.tables[t].rows && (u, fk) in Referencings(db, t)
    ensures GetValue(db.tables[t].schema.columns, db.tables[t].rows[k], fk.referencedColumn).Some?
  {
    ConsistentTable(db, t);
    assert ForeignKeyOk(db, db.tables[u].schema, fk);
    StoredPrimaryKey(db, t, k, PrimaryKeyIndex(db.tables[t].schema.columns).value);
  }

  /** DELETE in a consistent store is accepted exactly when the condition does not fail on any row and no
    chosen row is referred to by a row of another table. */
  lemma DeleteAcceptedExactlyWhen(approx: (Value, Value) -> bool, db: Database, t: string, selection: Option<Condition>)
    requires Consistent(db) && t in db.tables
    ensures DeleteAccepts(approx, db, t, selection) <==>
              forall k | k in db.tables[t].rows ::
                && (selection.Some? ==> (selection.value)(db, db.tables[t].rows[k]).Ok?)
                && (Chosen(db, selection, db.tables[t].rows[k]) ==> !PointedAt(db, t, k))
  {
    hide Consistent, Scan, Fetch, PointedAt, Deletable;
    var rows := db.tables[t].rows;
    if DeleteAccepts(approx, db, t, selection) {
      SelectedKeys(db, rows, selection);
      forall k | k in rows
        ensures selection.Some? ==> (selection.value)(db, rows[k]).Ok?
        ensures Chosen(db, selection, rows[k]) ==> !PointedAt(db, t, k)
      {
        if Chosen(db, selection, rows[k]) {
          var j := ScanIndex(rows, k);
          var i := FetchComplete(db, selection, Scan(rows), j);
          DeletableExactlyWhen(approx, db, t, k);
        }
      }
    }
    if forall k | k in rows ::
      && (selection.Some? ==> (selection.value)(db, rows[k]).Ok?)
      && (Chosen(db, selection, rows[k]) ==> !PointedAt(db, t, k))
    {
      ScanListsRows(rows);
      forall i | 0 <= i < |Fetch(db, selection, Scan(rows))|
        ensures Deletable(approx, db, t, Fetch(db, selection, Scan(rows))[i].1)
      {
        FetchedFromTable(db, selection, rows, i);
        DeletableExactlyWhen(approx, db, t, Fetch(db, selection, Scan(rows))[i].0);
      }
    }
  }
}
