/** UPDATE of unique columns: the new rows are compared with every stored row, their own old versions
  included (core/src/executor/validate.rs, core/src/executor/execute.rs). */
module UpdateUnique {
  import opened Data
  import opened Store
  import opened Validate
  import opened Dml
  import opened Integrity
  import opened Reachable
  import opened DmlFacts

  // ----- one column -----

  /** No two stored rows clash in the column. */
  ghost predicate UniqueIn(rows: map<Key, Row>, c: nat) {
    && (forall k | k in rows :: Usable(rows[k], c))
    && (forall k, l | k in rows && l in rows && k != l :: NoClash(rows[k], rows[l], c))
  }

  /** A new row takes a key that a replaced row held, possibly its own. */
  ghost predicate Reuses(rows: map<Key, Row>, changes: map<Key, Row>, c: nat) {
    exists k, l | k in changes && l in changes && l in rows ::
      && Usable(changes[k], c) && Usable(rows[l], c)
      && KeyAt(changes[k], c) == KeyAt(rows[l], c) && !KeyAt(changes[k], c).None?
  }

  /** The sequence lists the changes, each once. */
  ghost predicate ListsChanges(keys: seq<Key>, updated: seq<Row>, changes: map<Key, Row>) {
    && |keys| == |updated|
    && (forall i | 0 <= i < |keys| :: keys[i] in changes && updated[i] == changes[keys[i]])
    && (forall k | k in changes :: k in keys)
    && (forall i, j | 0 <= i < j < |keys| :: keys[i] != keys[j])
  }

  lemma ListedAt(keys: seq<Key>, updated: seq<Row>, changes: map<Key, Row>, k: Key) returns (i: nat)
    requires ListsChanges(keys, updated, changes) && k in changes
    ensures i < |keys| == |updated| && keys[i] == k && updated[i] == changes[k]
  {
    assert k in keys;
    i :| 0 <= i < |keys| && keys[i] == k;
  }

  lemma NewRowsDoNotClash(
      changes: map<Key, Row>, keys: seq<Key>, updated: seq<Row>, c: nat, k: Key, l: Key)
    requires ListsChanges(keys, updated, changes) && DistinctKeys(updated, c)
    requires k in changes && l in changes && k != l
    ensures Usable(changes[k], c) && Usable(changes[l], c) && NoClash(changes[k], changes[l], c)
  {
    hide ListsChanges, Usable, KeyAt;
    var i := ListedAt(keys, updated, changes, k);
    var j := ListedAt(keys, updated, changes, l);
    assert Usable(updated[i], c) && Usable(updated[j], c);
    if i < j {
      assert KeyAt(updated[i], c) == KeyAt(updated[j], c) ==> KeyAt(updated[i], c).None?;
    } else {
      assert KeyAt(updated[j], c) == KeyAt(updated[i], c) ==> KeyAt(updated[j], c).None?;
    }
  }

  lemma NewRowIsNew(
      table: Table, changes: map<Key, Row>, keys: seq<Key>, updated: seq<Row>, c: nat, k: Key, l: Key)
    requires ListsChanges(keys, updated, changes) && DistinctKeys(updated, c) && NewToTable(table, c, updated)
    requires k in changes && l in table.rows
    ensures Usable(changes[k], c) && Usable(table.rows[l], c) && NoClash(changes[k], table.rows[l], c)
  {
    hide ListsChanges, Usable, KeyAt;
    var i := ListedAt(keys, updated, changes, k);
    assert Usable(updated[i], c);
    assert HoldsKey(updated, c, KeyAt(updated[i], c));
  }

  lemma AcceptedIsUnique(
      table: Table, changes: map<Key, Row>, keys: seq<Key>, updated: seq<Row>, c: nat)
    requires UniqueIn(table.rows, c) && changes.Keys <= table.rows.Keys && ListsChanges(keys, updated, changes)
    requires DistinctKeys(updated, c) && NewToTable(table, c, updated)
    ensures UniqueIn(table.rows + changes, c) && !Reuses(table.rows, changes, c)
  {
    hide Usable, KeyAt, DistinctKeys, NewToTable, ListsChanges;
    var after := table.rows + changes;
    forall k, l | k in changes && l in table.rows
      ensures Usable(changes[k], c) && Usable(table.rows[l], c) && NoClash(changes[k], table.rows[l], c)
    {
      NewRowIsNew(table, changes, keys, updated, c, k, l);
    }
    assert !Reuses(table.rows, changes, c);
    forall k | k in after ensures Usable(after[k], c) { if k in changes { assert k in table.rows; } }
    forall k, l | k in after && l in after && k != l ensures NoClash(after[k], after[l], c) {
      if k in changes && l in changes {
        NewRowsDoNotClash(changes, keys, updated, c, k, l);
      } else if k in changes {
        assert NoClash(changes[k], table.rows[l], c);
      } else if l in changes {
        assert NoClash(changes[l], table.rows[k], c);
      } else {
        assert NoClash(table.rows[k], table.rows[l], c);
      }
    }
  }

  lemma UniqueIsAccepted(
      table: Table, changes: map<Key, Row>, keys: seq<Key>, updated: seq<Row>, c: nat)
    requires UniqueIn(table.rows, c) && changes.Keys <= table.rows.Keys && ListsChanges(keys, updated, changes)
    requires UniqueIn(table.rows + changes, c) && !Reuses(table.rows, changes, c)
    ensures DistinctKeys(updated, c) && NewToTable(table, c, updated)
  {
    hide ToKey, Canonical, KeyAt;
    var after := table.rows + changes;
    forall i | 0 <= i < |updated| ensures Usable(updated[i], c) && updated[i] == after[keys[i]] {}
    forall i, j | 0 <= i < j < |updated|
      ensures KeyAt(updated[i], c) == KeyAt(updated[j], c) ==> KeyAt(updated[i], c).None?
    {
      assert NoClash(after[keys[i]], after[keys[j]], c);
    }
    forall k | k in table.rows
      ensures KeyAt(table.rows[k], c).None? || !HoldsKey(updated, c, KeyAt(table.rows[k], c))
    {
      forall i | 0 <= i < |updated| && KeyAt(updated[i], c) == KeyAt(table.rows[k], c)
        ensures KeyAt(table.rows[k], c).None?
      {
        if k !in changes { assert after[k] == table.rows[k] && NoClash(after[keys[i]], after[k], c); }
      }
    }
  }

  // ----- the statement -----

  /** The rows that UPDATE replaces, and by what. */
  ghost function Replacements(
      db: Database, table: Table, assignments: seq<Assignment>, selection: Option<Condition>): map<Key, Row>
  {
    map k | k in table.rows && Selects(db, selection, table.rows[k]) == Ok(true) ::
      UpdatedRow(db, table.schema.columns, assignments, table.rows[k])
  }

  lemma UpdatesListReplacements(
      db: Database, table: Table, assignments: seq<Assignment>, selection: Option<Condition>)
    requires Evaluable(db, selection, Scan(table.rows))
    ensures var fetched := Fetch(db, selection, Scan(table.rows));
            ListsChanges(KeysOnly(fetched), RowsOnly(UpdatedRows(db, table.schema.columns, assignments, fetched)),
              Replacements(db, table, assignments, selection))
  {
    hide Scan, Fetch, UpdatedRow;
    SelectedKeys(db, table.rows, selection);
    var fetched := Fetch(db, selection, Scan(table.rows));
    forall i | 0 <= i < |fetched| ensures fetched[i].0 in table.rows && fetched[i].1 == table.rows[fetched[i].0] {
      FetchedFromTable(db, selection, table.rows, i);
    }
  }

  /** Everything but uniqueness is in order. */
  ghost predicate Otherwise(
      db: Database, table: Table, assignments: seq<Assignment>, selection: Option<Condition>)
  {
    var fetched := Fetch(db, selection, Scan(table.rows));
    && Assignable(table.schema.columns, assignments)
    && Evaluable(db, selection, Scan(table.rows))
    && (forall i | 0 <= i < |fetched| :: RowAccepts(db, table.schema, assignments, fetched[i].1))
  }

  /** UPDATE in a consistent store, otherwise in order, is accepted exactly when in every assigned unique
    column the result has no clash and, besides, no new row takes a key that a replaced row held.  SQL
    asks for the first condition only. */
  lemma UpdateAcceptedExactlyWhen(
      db: Database, t: string, assignments: seq<Assignment>, selection: Option<Condition>)
    requires Consistent(db) && t in db.tables && Otherwise(db, db.tables[t], assignments, selection)
    ensures var table := db.tables[t];
            var changes := Replacements(db, table, assignments, selection);
            UpdateAccepts(db, t, assignments, selection) <==>
              forall c | c in UniqueColumns(table.schema.columns, SpecifiedColumns(Ids(assignments))) ::
                UniqueIn(table.rows + changes, c) && !Reuses(table.rows, changes, c)
  {
    hide Consistent, Scan, Fetch, UpdatedRow, RowAccepts, Assignable, DistinctKeys, NewToTable, UniqueIn, Reuses,
      Replacements, ListsChanges, RowsOk, ColumnsOk;
    var table := db.tables[t];
    var changes := Replacements(db, table, assignments, selection);
    assert changes.Keys <= table.rows.Keys by { ReplacementsAreStored(db, table, assignments, selection); }
    var fetched := Fetch(db, selection, Scan(table.rows));
    var keys, updated := KeysOnly(fetched), RowsOnly(UpdatedRows(db, table.schema.columns, assignments, fetched));
    UpdatesListReplacements(db, table, assignments, selection);
    var columns := UniqueColumns(table.schema.columns, SpecifiedColumns(Ids(assignments)));
    forall c | c in columns
      ensures DistinctKeys(updated, c) && NewToTable(table, c, updated) <==>
              UniqueIn(table.rows + changes, c) && !Reuses(table.rows, changes, c)
    {
      ConsistentIsUnique(db, t, c);
      if DistinctKeys(updated, c) && NewToTable(table, c, updated) {
        AcceptedIsUnique(table, changes, keys, updated, c);
      }
      if UniqueIn(table.rows + changes, c) && !Reuses(table.rows, changes, c) {
        UniqueIsAccepted(table, changes, keys, updated, c);
      }
    }
  }

  lemma ReplacementsAreStored(
      db: Database, table: Table, assignments: seq<Assignment>, selection: Option<Condition>)
    ensures Replacements(db, table, assignments, selection).Keys <= table.rows.Keys
  {
  }

  lemma ConsistentIsUnique(db: Database, t: string, c: nat)
    requires Consistent(db) && t in db.tables && IsUnique(db.tables[t].schema.columns, c)
    ensures UniqueIn(db.tables[t].rows, c)
  {
    hide Consistent, RowOk, Keyed, NoClash, GeneratedKeys, Usable, ColumnsOk;
    ConsistentTable(db, t);
    var table := db.tables[t];
    forall k | k in table.rows ensures Usable(table.rows[k], c) {
      assert RowOk(table.schema, table.rows[k]);
      RowOkUsable(table.schema, table.rows[k], c);
    }
  }

  // ----- an update that changes nothing and is refused -----

  const USER_COLUMNS: seq<ColumnDef> := [
    ColumnDef("id", Int, false, Some(Unique(true)), Option.None),
    ColumnDef("mail", DataType.Text, false, Some(Unique(false)), Option.None)]

  const USER: Row := [Value.I64(1), Value.Str([97])]
  const USERS := Database(map["user" := Table(Schema(USER_COLUMNS, []), map[Key.I64(1) := USER])], 0)

  /** `SET mail = mail`. */
  function SameMail(): seq<Assignment> {
    [Assignment("mail", (_, row: Row, _) => if |row| > 1 then Ok(row[1]) else Err(Error("no mail")))]
  }

  lemma UserColumns()
    ensures PrimaryKeyIndex(USER_COLUMNS) == Some(0) && ColumnsOk(USER_COLUMNS)
    ensures ColumnIndex(USER_COLUMNS, "mail") == Some(1)
  {
    assert USER_COLUMNS[1..][0] == USER_COLUMNS[1];
    assert "id"[0] != "mail"[0];
    assert USER_COLUMNS[0].name == "id" && USER_COLUMNS[1].name == "mail";
  }

  lemma UsersConsistent()
    ensures Consistent(USERS)
  {
    UserColumns();
    hide ColumnsOk;
    var table := USERS.tables["user"];
    forall k | k in table.rows ensures RowOk(table.schema, table.rows[k]) && Keyed(USER_COLUMNS, k, table.rows[k]) {
      forall c | IsUnique(USER_COLUMNS, c) ensures Usable(table.rows[k], c) { assert c == 0 || c == 1; }
    }
    assert RowsOk(table.schema, table.rows);
    assert TableOk(table, 0);
  }

  lemma SameMailChangesNothing()
    ensures UpdatedRow(USERS, USER_COLUMNS, SameMail(), USER) == USER
    ensures RowAccepts(USERS, Schema(USER_COLUMNS, []), SameMail(), USER)
    ensures Assignable(USER_COLUMNS, SameMail())
  {
    UserColumns();
    hide ColumnsOk;
    var same := SameMail();
    assert "id"[0] != "mail"[0];
    assert same[1..] == [];
    assert AssignedValue(USERS, USER_COLUMNS, same[0], USER) == Ok(USER[1]);
    assert NewValue(USERS, USER_COLUMNS, same, USER, "id", USER[0]) == USER[0];
    assert NewValue(USERS, USER_COLUMNS, same, USER, "mail", USER[1]) == USER[1];
    assert USER_COLUMNS[1].name == same[0].id;
  }

  /** `UPDATE user SET mail = mail` with one row: everything is in order and the result is the store
    itself, yet the statement is refused. */
  lemma UnchangedUniqueValueIsRefused()
    ensures Consistent(USERS)
    ensures var table := USERS.tables["user"];
            && Otherwise(USERS, table, SameMail(), Option.None)
            && table.rows + Replacements(USERS, table, SameMail(), Option.None) == table.rows
    ensures !UpdateAccepts(USERS, "user", SameMail(), Option.None)
  {
    UsersConsistent();
    SameMailChangesNothing();
    hide Consistent, UpdatedRow, RowAccepts, Assignable, Scan, Fetch;
    var table := USERS.tables["user"];
    var fetched := Fetch(USERS, Option.None, Scan(table.rows));
    forall i | 0 <= i < |fetched| ensures RowAccepts(USERS, table.schema, SameMail(), fetched[i].1) {
      FetchedFromTable(USERS, Option.None, table.rows, i);
    }
    assert Otherwise(USERS, table, SameMail(), Option.None);
    var changes := Replacements(USERS, table, SameMail(), Option.None);
    assert changes == table.rows;
    hide Otherwise;
    MailIsReused(table, changes);
    UpdateAcceptedExactlyWhen(USERS, "user", SameMail(), Option.None);
  }

  lemma MailIsReused(table: Table, changes: map<Key, Row>)
    requires table == USERS.tables["user"] && changes == table.rows
    ensures Reuses(table.rows, changes, 1)
    ensures 1 in UniqueColumns(USER_COLUMNS, SpecifiedColumns(Ids(SameMail())))
  {
    var k := Key.I64(1);
    assert k in changes && Usable(USER, 1) && KeyAt(USER, 1) == Key.Str([97]);
    assert Ids(SameMail()) == ["mail"];
  }
}
