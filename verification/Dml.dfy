/** INSERT, UPDATE and DELETE: when each is accepted and which rows it changes
  (core/src/executor/insert.rs, update.rs, delete.rs and the Update arm of execute.rs). */
module Dml {
  import opened Data
  import opened Store
  import opened Validate
  import opened ResultRows

  /** A WHERE clause on one row (`check_expr`: NULL counts as false).  It may read the whole store. */
  type Condition = (Database, Row) -> Result<bool>

  /** An assigned expression on one row, converted to the column's type. */
  type RowExpr = (Database, Row, DataType) -> Result<Value>

  datatype Assignment = Assignment(id: string, value: RowExpr)

  datatype Source =
    | Values(list: seq<seq<Scalar>>, limit: Option<nat>, offset: Option<nat>)
    | Select(query: Database -> Result<seq<Row>>)

  datatype Statement =
    | Insert(table: string, columns: seq<string>, source: Source)
    | Update(table: string, assignments: seq<Assignment>, selection: Option<Condition>)
    | Delete(table: string, selection: Option<Condition>)

  datatype Payload = Inserted(count: nat) | Updated(count: nat) | Deleted(count: nat)

  // ----- INSERT: building rows -----

  function Convert(e: Scalar, def: ColumnDef): Result<Value> {
    Fitting(e(def.dataType), def.dataType, def.nullable)
  }

  /** The value paired with the first occurrence of the name. */
  function FindValue(names: seq<string>, values: seq<Scalar>, name: string): Option<Scalar> {
    if names == [] || values == [] then Option.None
    else if names[0] == name then Some(values[0])
    else FindValue(names[1..], values[1..], name)
  }

  function FillColumn(def: ColumnDef, names: seq<string>, values: seq<Scalar>): Result<Value> {
    match (FindValue(names, values, def.name), def.default)
    case (Some(e), _) => Convert(e, def)
    case (None, Some(e)) => Convert(e, def)
    case (None, None) => if def.nullable then Ok(Value.Null) else Err(Error("lack of required column"))
  }

  function FillColumns(defs: seq<ColumnDef>, names: seq<string>, values: seq<Scalar>): (r: Result<Row>)
    ensures r.Ok? ==> |r.value| == |defs| &&
                      forall i | 0 <= i < |defs| :: FillColumn(defs[i], names, values) == Ok(r.value[i])
  {
    if defs == [] then Ok([])
    else
      var v :- FillColumn(defs[0], names, values);
      var rest :- FillColumns(defs[1..], names, values);
      Ok([v] + rest)
  }

  function FillValues(defs: seq<ColumnDef>, names: seq<string>, values: seq<Scalar>): Result<Row> {
    if names != [] && |values| != |names| then Err(Error("column and values not matched"))
    else if |values| > |defs| then Err(Error("literals have more values than target columns"))
    else if exists i | 0 <= i < |names| :: names[i] !in ColumnNames(defs) then Err(Error("wrong column name"))
    else FillColumns(defs, if names == [] then ColumnNames(defs) else names, values)
  }

  /** A built row has one value per column, of the declared type and non-null where required. */
  lemma FilledRowFits(defs: seq<ColumnDef>, names: seq<string>, values: seq<Scalar>)
    ensures var r := FillValues(defs, names, values);
            r.Ok? ==> |r.value| == |defs| &&
                      forall i | 0 <= i < |defs| :: Fits(r.value[i], defs[i].dataType, defs[i].nullable)
  {
    var r := FillValues(defs, names, values);
    if r.Ok? {
      var names' := if names == [] then ColumnNames(defs) else names;
      forall i | 0 <= i < |defs| ensures Fits(r.value[i], defs[i].dataType, defs[i].nullable) {
        assert FillColumn(defs[i], names', values) == Ok(r.value[i]);
      }
    }
  }

  ghost predicate IsPermutation(p: seq<nat>, n: nat) {
    && |p| == n
    && (forall i | 0 <= i < n :: p[i] < n)
    && (forall i, j | 0 <= i < j < n :: p[i] != p[j])
    && (forall k | 0 <= k < n :: k in p)
  }

  ghost predicate NoDuplicates(names: seq<string>) {
    forall i, j | 0 <= i < j < |names| :: names[i] != names[j]
  }

  lemma {:induction false} FindValueAt(names: seq<string>, values: seq<Scalar>, i: nat)
    requires |names| == |values| && i < |names| && NoDuplicates(names)
    ensures FindValue(names, values, names[i]) == Some(values[i])
  {
    if i > 0 {
      FindValueAt(names[1..], values[1..], i - 1);
    }
  }

  lemma {:induction false} FindValueAbsent(names: seq<string>, values: seq<Scalar>, name: string)
    requires name !in names
    ensures FindValue(names, values, name).None?
  {
    if names != [] && values != [] {
      FindValueAbsent(names[1..], values[1..], name);
    }
  }

  lemma {:induction false} FillColumnsCongruent(
      defs: seq<ColumnDef>, names: seq<string>, values: seq<Scalar>, names': seq<string>, values': seq<Scalar>)
    requires forall name :: FindValue(names, values, name) == FindValue(names', values', name)
    ensures FillColumns(defs, names, values) == FillColumns(defs, names', values')
  {
    if defs != [] {
      FillColumnsCongruent(defs[1..], names, values, names', values');
      assert FindValue(names, values, defs[0].name) == FindValue(names', values', defs[0].name);
    }
  }

  lemma NamesKnownAlike(defs: seq<ColumnDef>, names: seq<string>, names': seq<string>)
    requires forall name :: name in names <==> name in names'
    ensures (exists i | 0 <= i < |names| :: names[i] !in ColumnNames(defs)) ==>
            (exists i | 0 <= i < |names'| :: names'[i] !in ColumnNames(defs))
  {
    hide ColumnNames;
    if exists i | 0 <= i < |names| :: names[i] !in ColumnNames(defs) {
      var i :| 0 <= i < |names| && names[i] !in ColumnNames(defs);
      assert names[i] in names';
      var j :| 0 <= j < |names'| && names'[j] == names[i];
    }
  }

  /** Listing distinct column names in another order, with their values in that order too, builds
    the same row or fails with the same error. */
  lemma PermutedColumnsFillTheSameRow(defs: seq<ColumnDef>, names: seq<string>, values: seq<Scalar>, p: seq<nat>)
    requires |names| == |values| && NoDuplicates(names) && IsPermutation(p, |names|)
    ensures FillValues(defs, names, values) ==
            FillValues(defs, seq(|p|, i requires 0 <= i < |p| => names[p[i]]),
                             seq(|p|, i requires 0 <= i < |p| => values[p[i]]))
  {
    var names', values' := seq(|p|, i requires 0 <= i < |p| => names[p[i]]),
                           seq(|p|, i requires 0 <= i < |p| => values[p[i]]);
    forall name ensures FindValue(names, values, name) == FindValue(names', values', name)
                ensures name in names <==> name in names'
    {
      if name in names {
        var k :| 0 <= k < |names| && names[k] == name;
        assert k in p;
        var i :| 0 <= i < |p| && p[i] == k;
        assert names'[i] == name;
        FindValueAt(names, values, k);
        FindValueAt(names', values', i);
      } else {
        FindValueAbsent(names, values, name);
        FindValueAbsent(names', values', name);
      }
    }
    if names != [] { assert names' != []; }
    NamesKnownAlike(defs, names, names');
    NamesKnownAlike(defs, names', names);
    FillColumnsCongruent(defs, names, values, names', values');
  }

  function FillAll(defs: seq<ColumnDef>, names: seq<string>, lists: seq<seq<Scalar>>): (r: Result<seq<Row>>)
    ensures r.Ok? ==> |r.value| == |lists| &&
                      forall i | 0 <= i < |lists| :: FillValues(defs, names, lists[i]) == Ok(r.value[i])
  {
    if lists == [] then Ok([])
    else
      var row :- FillValues(defs, names, lists[0]);
      var rest :- FillAll(defs, names, lists[1..]);
      Ok([row] + rest)
  }

  /** A selected row is checked only as far as both the row and the schema reach. */
  predicate FitsPrefix(columns: seq<ColumnDef>, row: Row) {
    forall i | 0 <= i < |row| && i < |columns| :: Fits(row[i], columns[i].dataType, columns[i].nullable)
  }

  /** The rows of an INSERT before validation. */
  function SourceRows(db: Database, columns: seq<ColumnDef>, names: seq<string>, source: Source): Result<seq<Row>> {
    match source
    case Values(list, limit, offset) => FillAll(columns, names, ApplyLimit(list, limit, offset))
    case Select(query) =>
      var rows :- query(db);
      if forall row | row in rows :: FitsPrefix(columns, row) then Ok(rows) else Err(Error("incompatible value"))
  }

  // ----- foreign keys -----

  /** The value is NULL or the key of a row of the referenced table. */
  predicate Refers(db: Database, fk: ForeignKey, v: Value) {
    v.Null? ||
    (ToKey(v).Ok? && fk.referencedTable in db.tables && ToKey(v).value in db.tables[fk.referencedTable].rows)
  }

  predicate RowRefers(db: Database, schema: Schema, fk: ForeignKey, row: Row) {
    var v := GetValue(schema.columns, row, fk.referencingColumn);
    v.Some? && Refers(db, fk, v.value)
  }

  /** What `validate_foreign_key` accepts. */
  predicate ForeignKeysAccept(db: Database, schema: Schema, rows: seq<Row>) {
    forall fk | fk in schema.foreignKeys ::
      ColumnIndex(schema.columns, fk.referencingColumn).Some? &&
      forall i | 0 <= i < |rows| :: RowRefers(db, schema, fk, rows[i])
  }

  // ----- INSERT -----

  predicate Keyable(rows: seq<Row>, p: nat) {
    forall i | 0 <= i < |rows| && p < |rows[i]| :: ToKey(rows[i][p]).Ok?
  }

  /** Each row under its primary key; rows without the column are dropped. */
  function UnderPrimaryKey(rows: seq<Row>, p: nat): seq<(Key, Row)>
    requires Keyable(rows, p)
  {
    if rows == [] then []
    else
      var n := |rows| - 1;
      UnderPrimaryKey(rows[..n], p) + if p < |rows[n]| then [(ToKey(rows[n][p]).value, rows[n])] else []
  }

  /** Each row under the next generated key. */
  function UnderGeneratedKeys(rows: seq<Row>, id: nat): (r: seq<(Key, Row)>)
    requires id + |rows| < ID_LIMIT
    ensures |r| == |rows|
  {
    seq(|rows|, i requires 0 <= i < |rows| => (Key.I64(id + 1 + i), rows[i]))
  }

  ghost predicate InsertAccepts(db: Database, name: string, names: seq<string>, source: Source) {
    name in db.tables &&
    var table := db.tables[name];
    var rows := SourceRows(db, table.schema.columns, names, source);
    rows.Ok? && BatchAccepts(table, All, rows.value) && ForeignKeysAccept(db, table.schema, rows.value)
  }

  // ----- UPDATE -----

  function Selects(db: Database, selection: Option<Condition>, row: Row): Result<bool> {
    match selection
    case None => Ok(true)
    case Some(c) => c(db, row)
  }

  ghost predicate Evaluable(db: Database, selection: Option<Condition>, rows: seq<(Key, Row)>) {
    forall i | 0 <= i < |rows| :: Selects(db, selection, rows[i].1).Ok?
  }

  /** `fetch`: the scanned rows that the selection accepts. */
  ghost function Fetch(db: Database, selection: Option<Condition>, rows: seq<(Key, Row)>): seq<(Key, Row)> {
    if rows == [] then []
    else
      var n := |rows| - 1;
      Fetch(db, selection, rows[..n]) + if Selects(db, selection, rows[n].1) == Ok(true) then [rows[n]] else []
  }

  /** `Update::new`: every assigned column exists and is no primary key. */
  predicate Assignable(columns: seq<ColumnDef>, assignments: seq<Assignment>) {
    forall j | 0 <= j < |assignments| ::
      (exists i | 0 <= i < |columns| :: columns[i].name == assignments[j].id) &&
      forall i | 0 <= i < |columns| && columns[i].name == assignments[j].id :: columns[i].unique != Some(Unique(true))
  }

  function AssignedValue(db: Database, columns: seq<ColumnDef>, a: Assignment, row: Row): Result<Value> {
    match ColumnIndex(columns, a.id)
    case None => Err(Error("conflict on schema, row data does not fit to schema"))
    case Some(i) =>
      var v :- (a.value)(db, row, columns[i].dataType);
      if Fits(v, columns[i].dataType, columns[i].nullable) then Ok(v) else Err(Error("incompatible value"))
  }

  /** The assigned value fits its column and refers to an existing row. */
  predicate AssignmentAccepts(db: Database, schema: Schema, a: Assignment, row: Row) {
    var v := AssignedValue(db, schema.columns, a, row);
    v.Ok? && forall fk | fk in schema.foreignKeys && fk.referencingColumn == a.id :: Refers(db, fk, v.value)
  }

  predicate RowAccepts(db: Database, schema: Schema, assignments: seq<Assignment>, row: Row) {
    forall i | 0 <= i < |assignments| :: AssignmentAccepts(db, schema, assignments[i], row)
  }

  /** The value the first assignment to the column gives, or else the old value. */
  function NewValue(
      db: Database, columns: seq<ColumnDef>, assignments: seq<Assignment>, row: Row, name: string, v: Value): Value
  {
    if assignments == [] then v
    else if assignments[0].id == name then
      (match AssignedValue(db, columns, assignments[0], row) case Ok(w) => w case Err(_) => v)
    else NewValue(db, columns, assignments[1..], row, name, v)
  }

  /** The row after assignment, as long as the shorter of the row and the schema. */
  function UpdatedRow(db: Database, columns: seq<ColumnDef>, assignments: seq<Assignment>, row: Row): (r: Row)
    ensures |r| == if |row| <= |columns| then |row| else |columns|
  {
    seq(if |row| <= |columns| then |row| else |columns|,
        i requires 0 <= i < |row| && i < |columns| =>
          NewValue(db, columns, assignments, row, columns[i].name, row[i]))
  }

  ghost function UpdatedRows(
      db: Database, columns: seq<ColumnDef>, assignments: seq<Assignment>, fetched: seq<(Key,
      Row)>): (r: seq<(Key, Row)>)
    ensures |r| == |fetched|
  {
    seq(|fetched|, i requires 0 <= i < |fetched| =>
      (fetched[i].0, UpdatedRow(db, columns, assignments, fetched[i].1)))
  }

  function RowsOnly(rows: seq<(Key, Row)>): (r: seq<Row>)
    ensures |r| == |rows|
  {
    seq(|rows|, i requires 0 <= i < |rows| => rows[i].1)
  }

  function Ids(assignments: seq<Assignment>): (r: seq<string>)
    ensures |r| == |assignments|
  {
    seq(|assignments|, i requires 0 <= i < |assignments| => assignments[i].id)
  }

  ghost predicate UpdateAccepts(
      db: Database, name: string, assignments: seq<Assignment>, selection: Option<Condition>)
  {
    name in db.tables &&
    var table := db.tables[name];
    var fetched := Fetch(db, selection, Scan(table.rows));
    && Assignable(table.schema.columns, assignments)
    && Evaluable(db, selection, Scan(table.rows))
    && (forall i | 0 <= i < |fetched| :: RowAccepts(db, table.schema, assignments, fetched[i].1))
    && BatchAccepts(table, SpecifiedColumns(Ids(assignments)),
                        RowsOnly(UpdatedRows(db, table.schema.columns, assignments, fetched)))
  }

  // ----- DELETE -----

  /** `fetch_referencings`: the foreign keys of other tables that point to this one. */
  function Referencings(db: Database, name: string): set<(string, ForeignKey)> {
    set t, fk | t in db.tables && fk in db.tables[t].schema.foreignKeys && fk.referencedTable == name && t != name ::
      (t, fk)
  }

  /** `column = value` on a row of the referencing table; a missing column is an error. */
  function Mentions(
      approx: (Value, Value) -> bool, columns: seq<ColumnDef>, row: Row, column: string, v: Value): Result<bool>
  {
    match GetValue(columns, row, column)
    case None => Err(Error("identifier not found"))
    case Some(w) => Ok(EvaluateEq(approx, w, v) == Tribool.True)
  }

  /** No row of the referencing table mentions the value. */
  ghost predicate Unmentioned(approx: (Value, Value) -> bool, table: Table, column: string, v: Value) {
    forall k | k in table.rows :: Mentions(approx, table.schema.columns, table.rows[k], column, v) == Ok(false)
  }

  /** No referencing row keeps the row from being deleted. */
  ghost predicate Deletable(approx: (Value, Value) -> bool, db: Database, name: string, row: Row)
    requires name in db.tables
  {
    forall t, fk | (t, fk) in Referencings(db, name) ::
      var v := GetValue(db.tables[name].schema.columns, row, fk.referencedColumn);
      v.Some? && Unmentioned(approx, db.tables[t], fk.referencingColumn, v.value)
  }

  ghost predicate DeleteAccepts(
      approx: (Value, Value) -> bool, db: Database, name: string, selection: Option<Condition>)
  {
    name in db.tables &&
    var scanned := Scan(db.tables[name].rows);
    && Evaluable(db, selection, scanned)
    && forall i | 0 <= i < |Fetch(db, selection, scanned)| ::
       Deletable(approx, db, name, Fetch(db, selection, scanned)[i].1)
  }

  function KeysOnly(rows: seq<(Key, Row)>): (r: seq<Key>)
    ensures |r| == |rows|
  {
    seq(|rows|, i requires 0 <= i < |rows| => rows[i].0)
  }

  // ----- what an accepted statement does -----

  datatype Change =
    | Write(rows: seq<(Key, Row)>)
    | Append(appended: seq<Row>)
    | Remove(keys: seq<Key>)

  function Size(change: Change): nat {
    match change
    case Write(rows) => |rows|
    case Append(rows) => |rows|
    case Remove(keys) => |keys|
  }

  ghost predicate Accepts(approx: (Value, Value) -> bool, db: Database, s: Statement) {
    match s
    case Insert(t, names, source) => InsertAccepts(db, t, names, source)
    case Update(t, assignments, selection) => UpdateAccepts(db, t, assignments, selection)
    case Delete(t, selection) => DeleteAccepts(approx, db, t, selection)
  }

  lemma AcceptedRowsAreKeyable(table: Table, rows: seq<Row>)
    requires BatchAccepts(table, All, rows) && PrimaryKeyIndex(table.schema.columns).Some?
    ensures Keyable(rows, PrimaryKeyIndex(table.schema.columns).value)
  {
    var p := PrimaryKeyIndex(table.schema.columns).value;
    if !PrimaryKeyOnly(table.schema.columns, All) {
      assert p in UniqueColumns(table.schema.columns, All);
      assert DistinctKeys(rows, p);
    }
  }

  ghost function ChangeOf(approx: (Value, Value) -> bool, db: Database, s: Statement): Change
    requires Accepts(approx, db, s)
  {
    match s
    case Insert(t, names, source) =>
      var table := db.tables[t];
      var rows := SourceRows(db, table.schema.columns, names, source).value;
      (match PrimaryKeyIndex(table.schema.columns)
       case Some(p) => AcceptedRowsAreKeyable(table, rows); Write(UnderPrimaryKey(rows, p))
       case None => Append(rows))
    case Update(t, assignments, selection) =>
      var table := db.tables[t];
      Write(UpdatedRows(db, table.schema.columns, assignments, Fetch(db, selection, Scan(table.rows))))
    case Delete(t, selection) =>
      Remove(KeysOnly(Fetch(db, selection, Scan(db.tables[t].rows))))
  }

  /** The count a successful statement reports. */
  ghost function PayloadOf(approx: (Value, Value) -> bool, db: Database, s: Statement): Payload
    requires Accepts(approx, db, s)
  {
    match s
    case Insert(_, _, _) =>
      var change := ChangeOf(approx, db, s);
      Inserted(Size(change))
    case Update(_, _, _) => Updated(Size(ChangeOf(approx, db, s)))
    case Delete(_, _) => Deleted(Size(ChangeOf(approx, db, s)))
  }

  predicate CanApply(db: Database, t: string, change: Change, n: nat) {
    t in db.tables && n <= Size(change) && (change.Append? ==> db.idCounter + n < ID_LIMIT)
  }

  /** The store after the first `n` row operations of the change. */
  function Apply(db: Database, t: string, change: Change, n: nat): Database
    requires CanApply(db, t, change, n)
  {
    var table := db.tables[t];
    match change
    case Write(rows) =>
      db.(tables := db.tables[t := table.(rows := WriteRows(table.rows, rows[..n]))])
    case Append(rows) =>
      var written := WriteRows(table.rows, UnderGeneratedKeys(rows[..n], db.idCounter));
      Database(db.tables[t := table.(rows := written)], db.idCounter + n)
    case Remove(keys) =>
      db.(tables := db.tables[t := table.(rows := RemoveRows(table.rows, keys[..n]))])
  }

  /** One statement.  A rejected statement changes nothing.  An accepted one performs all its row
    operations, or, when the storage fails on the way, some first part of them. */
  ghost predicate Step(approx: (Value, Value) -> bool, db: Database, s: Statement, db': Database, r: Result<Payload>) {
    if !Accepts(approx, db, s) then db' == db && r.Err?
    else
      var change := ChangeOf(approx, db, s);
      exists n | 0 <= n <= Size(change) ::
        && CanApply(db, s.table, change, n)
        && db' == Apply(db, s.table, change, n)
        && (r.Ok? <==> n == Size(change))
        && (r.Ok? ==> r.value == PayloadOf(approx, db, s))
  }
}
