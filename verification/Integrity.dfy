/** The constraints that every reachable store satisfies. */
module Integrity {
  import opened Data
  import opened Store
  import opened Validate
  import opened Dml

  // ----- well-formed schemas: what CREATE TABLE admits -----

  ghost predicate ForeignKeyOk(db: Database, schema: Schema, fk: ForeignKey) {
    && fk.referencedTable in db.tables
    && var i := ColumnIndex(schema.columns, fk.referencingColumn);
    && var referenced := db.tables[fk.referencedTable].schema.columns;
    && var p := PrimaryKeyIndex(referenced);
    && i.Some? && p.Some?
    && ColumnIndex(referenced, fk.referencedColumn) == p
    && schema.columns[i.value].dataType == referenced[p.value].dataType
  }

  ghost predicate ColumnsOk(columns: seq<ColumnDef>) {
    && (forall i, j | 0 <= i < j < |columns| :: columns[i].name != columns[j].name)
    && (forall i | 0 <= i < |columns| && columns[i].unique == Some(Unique(true)) ::
          PrimaryKeyIndex(columns) == Some(i) && !columns[i].nullable)
    && (forall i | 0 <= i < |columns| && columns[i].unique.Some? ::
          !IsFloat(columns[i].dataType) && columns[i].dataType != MapType)
  }

  ghost predicate SchemasOk(db: Database) {
    forall t | t in db.tables ::
      && ColumnsOk(db.tables[t].schema.columns)
      && forall fk | fk in db.tables[t].schema.foreignKeys :: ForeignKeyOk(db, db.tables[t].schema, fk)
  }

  // ----- constraints on the rows of one table -----

  /** Values fit their columns; unique columns hold keys; referencing columns are present. */
  ghost predicate RowOk(schema: Schema, row: Row) {
    && FitsPrefix(schema.columns, row)
    && (forall c | IsUnique(schema.columns, c) :: Usable(row, c))
    && (forall fk | fk in schema.foreignKeys :: GetValue(schema.columns, row, fk.referencingColumn).Some?)
  }

  /** Each row is stored under the key of its own primary-key value. */
  ghost predicate Keyed(columns: seq<ColumnDef>, key: Key, row: Row) {
    var p := PrimaryKeyIndex(columns);
    p.Some? ==> p.value < |row| && ToKey(row[p.value]) == Ok(key)
  }

  /** Two rows do not clash in a column: their keys differ, or are NULL. */
  predicate NoClash(a: Row, b: Row, c: nat)
    requires Usable(a, c) && Usable(b, c)
  {
    KeyAt(a, c) == KeyAt(b, c) ==> KeyAt(a, c).None?
  }

  ghost predicate RowsOk(schema: Schema, rows: map<Key, Row>) {
    forall k | k in rows :: RowOk(schema, rows[k]) && Keyed(schema.columns, k, rows[k])
  }

  /** Every UNIQUE or PRIMARY KEY column holds pairwise different keys, apart from NULLs. */
  ghost predicate Uniqueness(schema: Schema, rows: map<Key, Row>)
    requires RowsOk(schema, rows)
  {
    forall c, k, l | IsUnique(schema.columns, c) && k in rows && l in rows && k != l :: NoClash(rows[k], rows[l], c)
  }

  /** Generated keys count upwards. */
  ghost predicate GeneratedKeys(schema: Schema, rows: map<Key, Row>, id: Id) {
    PrimaryKeyIndex(schema.columns).None? ==> forall k | k in rows :: k.I64? && k.i64 <= id
  }

  ghost predicate TableOk(table: Table, id: Id) {
    && RowsOk(table.schema, table.rows)
    && Uniqueness(table.schema, table.rows)
    && GeneratedKeys(table.schema, table.rows, id)
  }

  // ----- references between tables -----

  /** Every non-null referencing value is the primary key of a stored row of the referenced table. */
  ghost predicate References(db: Database, t: string, fk: ForeignKey)
    requires t in db.tables
  {
    forall k | k in db.tables[t].rows :: RowRefers(db, db.tables[t].schema, fk, db.tables[t].rows[k])
  }

  ghost predicate ForeignKeysHold(db: Database) {
    forall t, fk | t in db.tables && fk in db.tables[t].schema.foreignKeys && fk.referencedTable != t ::
      References(db, t, fk)
  }

  /** The invariant of every reachable store. */
  ghost predicate Consistent(db: Database) {
    && SchemasOk(db)
    && (forall t | t in db.tables :: TableOk(db.tables[t], db.idCounter))
    && ForeignKeysHold(db)
  }

  lemma ConsistentTable(db: Database, t: string)
    requires Consistent(db) && t in db.tables
    ensures ColumnsOk(db.tables[t].schema.columns) && RowsOk(db.tables[t].schema, db.tables[t].rows)
    ensures TableOk(db.tables[t], db.idCounter)
  {
    hide RowsOk, ColumnsOk, Uniqueness, ForeignKeysHold;
    assert TableOk(db.tables[t], db.idCounter);
  }

  // ----- writing rows that are safe to write -----

  /** New rows that fit, keyed by their primary key, that clash neither with each other nor with the
    stored rows under other keys. */
  ghost predicate Safe(db: Database, t: string, changes: seq<(Key, Row)>, id: Id)
    requires t in db.tables && RowsOk(db.tables[t].schema, db.tables[t].rows)
  {
    var schema, rows := db.tables[t].schema, db.tables[t].rows;
    && (forall i | 0 <= i < |changes| ::
          && RowOk(schema, changes[i].1) && Keyed(schema.columns, changes[i].0, changes[i].1)
          && (PrimaryKeyIndex(schema.columns).None? ==> changes[i].0.I64? && changes[i].0.i64 <= id))
    && (forall c, i, j | IsUnique(schema.columns, c) && 0 <= i < |changes| && 0 <= j < |changes| &&
          changes[i].0 != changes[j].0 :: NoClash(changes[i].1, changes[j].1, c))
    && (forall c, i, k | IsUnique(schema.columns, c) && 0 <= i < |changes| && k in rows && k != changes[i].0 ::
          NoClash(changes[i].1, rows[k], c))
  }

  /** The new rows refer to stored rows. */
  ghost predicate ChangesRefer(db: Database, t: string, changes: seq<(Key, Row)>, fk: ForeignKey)
    requires t in db.tables
  {
    forall i | 0 <= i < |changes| :: RowRefers(db, db.tables[t].schema, fk, changes[i].1)
  }

  function WithRows(db: Database, t: string, rows: map<Key, Row>, id: Id): Database
    requires t in db.tables
  {
    Database(db.tables[t := db.tables[t].(rows := rows)], id)
  }

  lemma SchemasUnchanged(db: Database, t: string, rows: map<Key, Row>, id: Id)
    requires t in db.tables && SchemasOk(db)
    ensures SchemasOk(WithRows(db, t, rows, id))
  {
    var db' := WithRows(db, t, rows, id);
    forall u | u in db'.tables
      ensures ColumnsOk(db'.tables[u].schema.columns)
      ensures forall fk | fk in db'.tables[u].schema.foreignKeys :: ForeignKeyOk(db', db'.tables[u].schema, fk)
    {
      assert db'.tables[u].schema == db.tables[u].schema;
      forall fk | fk in db'.tables[u].schema.foreignKeys ensures ForeignKeyOk(db', db'.tables[u].schema, fk) {
        assert ForeignKeyOk(db, db.tables[u].schema, fk);
      }
    }
  }

  lemma WriteKeepsTable(db: Database, t: string, changes: seq<(Key, Row)>, id: Id)
    requires t in db.tables && TableOk(db.tables[t], db.idCounter) && db.idCounter <= id
    requires Safe(db, t, changes, id)
    ensures TableOk(db.tables[t].(rows := WriteRows(db.tables[t].rows, changes)), id)
  {
    hide RowOk, Keyed, NoClash;
    var schema, rows := db.tables[t].schema, db.tables[t].rows;
    var after := WriteRows(rows, changes);
    WrittenRows(rows, changes);
    assert RowsOk(schema, after);
    forall c, k, l | IsUnique(schema.columns, c) && k in after && l in after && k != l
      ensures Usable(after[k], c) && Usable(after[l], c) && NoClash(after[k], after[l], c)
    {
      RowOkUsable(schema, after[k], c);
      RowOkUsable(schema, after[l], c);
      WrittenRowsDoNotClash(db, t, changes, id, c, k, l);
    }
  }

  lemma RowOkUsable(schema: Schema, row: Row, c: nat)
    requires RowOk(schema, row) && IsUnique(schema.columns, c)
    ensures Usable(row, c)
  {
  }

  lemma NoClashSymmetric(a: Row, b: Row, c: nat)
    requires Usable(a, c) && Usable(b, c)
    ensures NoClash(a, b, c) <==> NoClash(b, a, c)
  {
  }

  lemma WrittenRowsDoNotClash(db: Database, t: string, changes: seq<(Key, Row)>, id: Id, c: nat, k: Key, l: Key)
    requires t in db.tables && TableOk(db.tables[t], db.idCounter) && Safe(db, t, changes, id)
    requires IsUnique(db.tables[t].schema.columns, c)
    requires k in WriteRows(db.tables[t].rows, changes) && l in WriteRows(db.tables[t].rows, changes) && k != l
    requires Usable(WriteRows(db.tables[t].rows, changes)[k], c) && Usable(WriteRows(db.tables[t].rows, changes)[l], c)
    ensures NoClash(WriteRows(db.tables[t].rows, changes)[k], WriteRows(db.tables[t].rows, changes)[l], c)
  {
    hide RowOk, Keyed, NoClash, WriteRows;
    var rows := db.tables[t].rows;
    var after := WriteRows(rows, changes);
    WrittenRows(rows, changes);
    if exists i | 0 <= i < |changes| :: changes[i] == (k, after[k]) {
      var i :| 0 <= i < |changes| && changes[i] == (k, after[k]);
      if exists j | 0 <= j < |changes| :: changes[j] == (l, after[l]) {
        var j :| 0 <= j < |changes| && changes[j] == (l, after[l]);
        assert changes[i].0 != changes[j].0;
      }
    } else if exists j | 0 <= j < |changes| :: changes[j] == (l, after[l]) {
      var j :| 0 <= j < |changes| && changes[j] == (l, after[l]);
      assert NoClash(changes[j].1, rows[k], c);
      NoClashSymmetric(after[l], after[k], c);
    }
  }

  /** Writing keeps every reference, also of a table to itself: no key disappears, and new rows refer
    to rows that were there. */
  lemma WriteKeepsReferences(db: Database, t: string, changes: seq<(Key, Row)>, id: Id, u: string, fk: ForeignKey)
    requires t in db.tables && u in db.tables && References(db, u, fk)
    requires u == t ==> ChangesRefer(db, t, changes, fk)
    ensures References(WithRows(db, t, WriteRows(db.tables[t].rows, changes), id), u, fk)
  {
    hide WriteRows;
    var rows := db.tables[t].rows;
    var after := WriteRows(rows, changes);
    var db' := WithRows(db, t, after, id);
    WrittenRows(rows, changes);
    forall k | k in db'.tables[u].rows ensures RowRefers(db', db'.tables[u].schema, fk, db'.tables[u].rows[k]) {
      assert RowRefers(db, db.tables[u].schema, fk, db'.tables[u].rows[k]);
    }
  }

  lemma SafeWriteKeepsConsistency(db: Database, t: string, changes: seq<(Key, Row)>, id: Id)
    requires Consistent(db) && t in db.tables && db.idCounter <= id && Safe(db, t, changes, id)
    requires forall fk | fk in db.tables[t].schema.foreignKeys && fk.referencedTable != t ::
        ChangesRefer(db, t, changes, fk)
    ensures Consistent(WithRows(db, t, WriteRows(db.tables[t].rows, changes), id))
  {
    hide Safe, References, SchemasOk, ChangesRefer;
    var db' := WithRows(db, t, WriteRows(db.tables[t].rows, changes), id);
    SchemasUnchanged(db, t, WriteRows(db.tables[t].rows, changes), id);
    WriteKeepsTable(db, t, changes, id);
    forall u, fk | u in db'.tables && fk in db'.tables[u].schema.foreignKeys && fk.referencedTable != u
      ensures References(db', u, fk)
    {
      WriteKeepsReferences(db, t, changes, id, u, fk);
    }
  }

  // ----- rows that INSERT accepts are safe -----

  /** Keys of unique columns are not floats, so the constraint remembers them unchanged. */
  lemma UniqueKeyPlain(columns: seq<ColumnDef>, row: Row, c: nat)
    requires ColumnsOk(columns) && FitsPrefix(columns, row) && IsUnique(columns, c) && Usable(row, c)
    ensures KeyAt(row, c) == ToKey(row[c]).value
  {
    assert Fits(row[c], columns[c].dataType, columns[c].nullable);
  }

  lemma SourceRowsFit(db: Database, columns: seq<ColumnDef>, names: seq<string>, source: Source)
    requires SourceRows(db, columns, names, source).Ok?
    ensures forall i | 0 <= i < |SourceRows(db, columns, names, source).value| ::
              FitsPrefix(columns, SourceRows(db, columns, names, source).value[i])
  {
    var rows := SourceRows(db, columns, names, source).value;
    forall i | 0 <= i < |rows| ensures FitsPrefix(columns, rows[i]) {
      match source
      case Values(list, limit, offset) =>
        FilledRowFits(columns, names, ResultRows.ApplyLimit(list, limit, offset)[i]);
      case Select(_) => assert rows[i] in rows;
    }
  }

  /** The batch passed type checks, uniqueness validation and foreign key validation. */
  ghost predicate Admitted(db: Database, t: string, rows: seq<Row>)
    requires t in db.tables
  {
    && (forall i | 0 <= i < |rows| :: FitsPrefix(db.tables[t].schema.columns, rows[i]))
    && BatchAccepts(db.tables[t], All, rows)
    && ForeignKeysAccept(db, db.tables[t].schema, rows)
  }

  /** A row that will be stored: one with a primary-key value, if the table has a primary key. */
  predicate Storable(columns: seq<ColumnDef>, row: Row) {
    PrimaryKeyIndex(columns).Some? ==> PrimaryKeyIndex(columns).value < |row|
  }

  lemma OnlyPrimaryKeyIsUnique(columns: seq<ColumnDef>, c: nat)
    requires ColumnsOk(columns) && PrimaryKeyOnly(columns, All) && IsUnique(columns, c)
    ensures PrimaryKeyIndex(columns) == Some(c)
  {
    var u := columns[c].unique.value;
    assert u == Unique(u.isPrimary);
  }

  lemma AdmittedUsable(db: Database, t: string, rows: seq<Row>, i: nat, c: nat)
    requires t in db.tables && ColumnsOk(db.tables[t].schema.columns) && Admitted(db, t, rows)
    requires i < |rows| && Storable(db.tables[t].schema.columns, rows[i]) && IsUnique(db.tables[t].schema.columns, c)
    ensures Usable(rows[i], c)
  {
    hide ToKey, Canonical, ColumnsOk, FitsPrefix;
    var columns := db.tables[t].schema.columns;
    if PrimaryKeyOnly(columns, All) {
      OnlyPrimaryKeyIsUnique(columns, c);
    } else {
      assert c in UniqueColumns(columns, All);
      assert DistinctKeys(rows, c);
    }
  }

  lemma AdmittedRowOk(db: Database, t: string, rows: seq<Row>, i: nat)
    requires t in db.tables && ColumnsOk(db.tables[t].schema.columns) && Admitted(db, t, rows)
    requires i < |rows| && Storable(db.tables[t].schema.columns, rows[i])
    ensures RowOk(db.tables[t].schema, rows[i])
    ensures forall fk | fk in db.tables[t].schema.foreignKeys :: RowRefers(db, db.tables[t].schema, fk, rows[i])
  {
    forall c | IsUnique(db.tables[t].schema.columns, c) ensures Usable(rows[i], c) {
      AdmittedUsable(db, t, rows, i, c);
    }
  }

  /** Two admitted rows under different keys do not clash. */
  lemma AdmittedRowsDoNotClash(db: Database, t: string, rows: seq<Row>, i: nat, j: nat, c: nat)
    requires t in db.tables && ColumnsOk(db.tables[t].schema.columns) && Admitted(db, t, rows)
    requires i < |rows| && j < |rows| && i != j && IsUnique(db.tables[t].schema.columns, c)
    requires Usable(rows[i], c) && Usable(rows[j], c)
    requires PrimaryKeyIndex(db.tables[t].schema.columns) == Some(c) ==> ToKey(rows[i][c]) != ToKey(rows[j][c])
    ensures NoClash(rows[i], rows[j], c)
  {
    hide ToKey, Canonical, ColumnsOk, FitsPrefix;
    var columns := db.tables[t].schema.columns;
    if PrimaryKeyOnly(columns, All) {
      OnlyPrimaryKeyIsUnique(columns, c);
      UniqueKeyPlain(columns, rows[i], c);
      UniqueKeyPlain(columns, rows[j], c);
    } else {
      assert c in UniqueColumns(columns, All);
      assert DistinctKeys(rows, c);
    }
  }

  /** An admitted row does not clash with a stored row. */
  lemma AdmittedRowIsNew(db: Database, t: string, rows: seq<Row>, i: nat, k: Key, c: nat)
    requires t in db.tables && ColumnsOk(db.tables[t].schema.columns) && Admitted(db, t, rows)
    requires RowsOk(db.tables[t].schema, db.tables[t].rows)
    requires i < |rows| && k in db.tables[t].rows && IsUnique(db.tables[t].schema.columns, c)
    requires Usable(rows[i], c) && Usable(db.tables[t].rows[k], c)
    ensures NoClash(rows[i], db.tables[t].rows[k], c)
  {
    hide ToKey, Canonical, ColumnsOk, FitsPrefix;
    var columns, stored := db.tables[t].schema.columns, db.tables[t].rows[k];
    if PrimaryKeyOnly(columns, All) {
      OnlyPrimaryKeyIsUnique(columns, c);
      assert Keyed(columns, k, stored);
      UniqueKeyPlain(columns, rows[i], c);
      UniqueKeyPlain(columns, stored, c);
    } else {
      assert c in UniqueColumns(columns, All);
      assert NewToTable(db.tables[t], c, rows);
    }
  }

  lemma {:induction false} UnderPrimaryKeyFrom(rows: seq<Row>, p: nat, i: nat) returns (j: nat)
    requires Keyable(rows, p) && i < |UnderPrimaryKey(rows, p)|
    ensures j < |rows| && p < |rows[j]| && UnderPrimaryKey(rows, p)[i] == (ToKey(rows[j][p]).value, rows[j])
    ensures i == |UnderPrimaryKey(rows[..j], p)|
  {
    var n := |rows| - 1;
    if i < |UnderPrimaryKey(rows[..n], p)| {
      j := UnderPrimaryKeyFrom(rows[..n], p, i);
      assert rows[..n][..j] == rows[..j];
    } else {
      j := n;
    }
  }

  lemma KeyedBatchIsSafe(db: Database, t: string, rows: seq<Row>, p: nat)
    requires Consistent(db) && t in db.tables && Admitted(db, t, rows)
    requires PrimaryKeyIndex(db.tables[t].schema.columns) == Some(p) && Keyable(rows, p)
    ensures Safe(db, t, UnderPrimaryKey(rows, p), db.idCounter)
    ensures forall fk | fk in db.tables[t].schema.foreignKeys :: ChangesRefer(db, t, UnderPrimaryKey(rows, p), fk)
  {
    hide RowOk, NoClash, UnderPrimaryKey, Admitted, RowRefers, Keyable, Consistent, ColumnsOk, Uniqueness;
    ConsistentTable(db, t);
    var schema, stored, changes := db.tables[t].schema, db.tables[t].rows, UnderPrimaryKey(rows, p);
    forall i | 0 <= i < |changes|
      ensures RowOk(schema, changes[i].1) && Keyed(schema.columns, changes[i].0, changes[i].1)
      ensures forall fk | fk in schema.foreignKeys :: RowRefers(db, schema, fk, changes[i].1)
    {
      var j := UnderPrimaryKeyFrom(rows, p, i);
      AdmittedRowOk(db, t, rows, j);
      RowOkUsable(schema, rows[j], p);
    }
    forall c, i, j | IsUnique(schema.columns, c) && 0 <= i < |changes| && 0 <= j < |changes| &&
      changes[i].0 != changes[j].0
      ensures Usable(changes[i].1, c) && Usable(changes[j].1, c) && NoClash(changes[i].1, changes[j].1, c)
    {
      var i' := UnderPrimaryKeyFrom(rows, p, i);
      var j' := UnderPrimaryKeyFrom(rows, p, j);
      RowOkUsable(schema, changes[i].1, c);
      RowOkUsable(schema, changes[j].1, c);
      AdmittedRowsDoNotClash(db, t, rows, i', j', c);
    }
    forall c, i, k | IsUnique(schema.columns, c) && 0 <= i < |changes| && k in stored
      ensures Usable(changes[i].1, c) && Usable(stored[k], c) && NoClash(changes[i].1, stored[k], c)
    {
      var i' := UnderPrimaryKeyFrom(rows, p, i);
      RowOkUsable(schema, changes[i].1, c);
      RowOkUsable(schema, stored[k], c);
      AdmittedRowIsNew(db, t, rows, i', k, c);
    }
  }

  lemma GeneratedRowsOk(db: Database, t: string, rows: seq<Row>, n: nat)
    requires Consistent(db) && t in db.tables && Admitted(db, t, rows) && n <= |rows|
    requires PrimaryKeyIndex(db.tables[t].schema.columns).None? && db.idCounter + n < ID_LIMIT
    ensures var changes := UnderGeneratedKeys(rows[..n], db.idCounter);
            forall i | 0 <= i < |changes| :: RowOk(db.tables[t].schema, changes[i].1)
    ensures forall fk | fk in db.tables[t].schema.foreignKeys ::
              ChangesRefer(db, t, UnderGeneratedKeys(rows[..n], db.idCounter), fk)
  {
    hide RowOk, Admitted, RowRefers, Consistent, ColumnsOk;
    ConsistentTable(db, t);
    var schema, changes := db.tables[t].schema, UnderGeneratedKeys(rows[..n], db.idCounter);
    forall i | 0 <= i < |changes|
      ensures RowOk(schema, changes[i].1)
      ensures forall fk | fk in schema.foreignKeys :: RowRefers(db, schema, fk, changes[i].1)
    {
      AdmittedRowOk(db, t, rows, i);
    }
  }

  lemma GeneratedBatchIsSafe(db: Database, t: string, rows: seq<Row>, n: nat)
    requires Consistent(db) && t in db.tables && Admitted(db, t, rows) && n <= |rows|
    requires PrimaryKeyIndex(db.tables[t].schema.columns).None? && db.idCounter + n < ID_LIMIT
    ensures Safe(db, t, UnderGeneratedKeys(rows[..n], db.idCounter), db.idCounter + n)
    ensures forall fk | fk in db.tables[t].schema.foreignKeys ::
              ChangesRefer(db, t, UnderGeneratedKeys(rows[..n], db.idCounter), fk)
  {
    hide RowOk, NoClash, Admitted, RowRefers, Consistent, ColumnsOk, Uniqueness;
    ConsistentTable(db, t);
    var schema, stored, changes := db.tables[t].schema, db.tables[t].rows, UnderGeneratedKeys(rows[..n], db.idCounter);
    GeneratedRowsOk(db, t, rows, n);
    forall c, i, j | IsUnique(schema.columns, c) && 0 <= i < |changes| && 0 <= j < |changes| &&
      changes[i].0 != changes[j].0
      ensures Usable(changes[i].1, c) && Usable(changes[j].1, c) && NoClash(changes[i].1, changes[j].1, c)
    {
      RowOkUsable(schema, changes[i].1, c);
      RowOkUsable(schema, changes[j].1, c);
      AdmittedRowsDoNotClash(db, t, rows, i, j, c);
    }
    forall c, i, k | IsUnique(schema.columns, c) && 0 <= i < |changes| && k in stored
      ensures Usable(changes[i].1, c) && Usable(stored[k], c) && NoClash(changes[i].1, stored[k], c)
    {
      RowOkUsable(schema, changes[i].1, c);
      RowOkUsable(schema, stored[k], c);
      AdmittedRowIsNew(db, t, rows, i, k, c);
    }
  }

  lemma SafePrefix(db: Database, t: string, changes: seq<(Key, Row)>, id: Id, n: nat)
    requires t in db.tables && RowsOk(db.tables[t].schema, db.tables[t].rows) && n <= |changes|
    requires Safe(db, t, changes, id)
    ensures Safe(db, t, changes[..n], id)
  {
    hide RowOk, Keyed, NoClash;
  }

  lemma InsertKeepsConsistency(
      db: Database, t: string, names: seq<string>, source: Source, approx: (Value, Value) -> bool, n: nat)
    requires Consistent(db) && InsertAccepts(db, t, names, source)
    requires CanApply(db, t, ChangeOf(approx, db, Insert(t, names, source)), n)
    ensures Consistent(Apply(db, t, ChangeOf(approx, db, Insert(t, names, source)), n))
  {
    hide Safe, ChangesRefer, Consistent, RowsOk, TableOk, ColumnsOk, SourceRows, BatchAccepts, ForeignKeysAccept,
      WriteRows, UnderPrimaryKey, UnderGeneratedKeys;
    var table := db.tables[t];
    ConsistentTable(db, t);
    var rows := SourceRows(db, table.schema.columns, names, source).value;
    SourceRowsFit(db, table.schema.columns, names, source);
    assert Admitted(db, t, rows);
    match PrimaryKeyIndex(table.schema.columns)
    case Some(p) =>
      AcceptedRowsAreKeyable(table, rows);
      KeyedBatchIsSafe(db, t, rows, p);
      WritePrefixKeepsConsistency(db, t, UnderPrimaryKey(rows, p), n);
    case None =>
      GeneratedBatchIsSafe(db, t, rows, n);
      SafeWriteKeepsConsistency(db, t, UnderGeneratedKeys(rows[..n], db.idCounter), db.idCounter + n);
  }

  lemma WritePrefixKeepsConsistency(db: Database, t: string, changes: seq<(Key, Row)>, n: nat)
    requires Consistent(db) && t in db.tables && n <= |changes| && Safe(db, t, changes, db.idCounter)
    requires forall fk | fk in db.tables[t].schema.foreignKeys && fk.referencedTable != t ::
        ChangesRefer(db, t, changes, fk)
    ensures Consistent(Apply(db, t, Write(changes), n))
  {
    hide Safe, RowsOk, SchemasOk, ForeignKeysHold;
    SafePrefix(db, t, changes, db.idCounter, n);
    SafeWriteKeepsConsistency(db, t, changes[..n], db.idCounter);
  }
}
