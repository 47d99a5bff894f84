/** Uniqueness validation (core/src/executor/validate.rs). */
module Validate {
  import opened Data
  import opened Store

  datatype ColumnValidation = All | SpecifiedColumns(names: seq<string>)

  /** The row has the column and its value can be a key. */
  predicate Usable(row: Row, c: nat) { c < |row| && ToKey(row[c]).Ok? }

  /** The key under which a unique constraint remembers the value. */
  function KeyAt(row: Row, c: nat): Key
    requires Usable(row, c)
  {
    Canonical(ToKey(row[c]).value)
  }

  /** The rows hold pairwise different keys in the column; any number of NULLs. */
  ghost predicate DistinctKeys(rows: seq<Row>, c: nat) {
    && (forall i | 0 <= i < |rows| :: Usable(rows[i], c))
    && (forall i, j | 0 <= i < j < |rows| :: KeyAt(rows[i], c) == KeyAt(rows[j], c) ==> KeyAt(rows[i], c).None?)
  }

  ghost predicate HoldsKey(rows: seq<Row>, c: nat, key: Key) {
    exists i | 0 <= i < |rows| :: Usable(rows[i], c) && KeyAt(rows[i], c) == key
  }

  // ----- which columns are checked -----

  predicate IsUnique(columns: seq<ColumnDef>, c: nat) { c < |columns| && columns[c].unique.Some? }

  /** `fetch_all_unique_columns` and `fetch_specified_unique_columns`. */
  function UniqueColumns(columns: seq<ColumnDef>, validation: ColumnValidation): (r: seq<nat>)
    ensures forall c: nat :: c in r <==>
        IsUnique(columns, c) && (validation.All? || columns[c].name in validation.names)
  {
    if columns == [] then []
    else
      var n := |columns| - 1;
      var init := UniqueColumns(columns[..n], validation);
      assert forall c | 0 <= c < n :: columns[..n][c] == columns[c];
      if columns[n].unique.Some? && (validation.All? || columns[n].name in validation.names) then init + [n] else init
  }

  /** The primary key is the only unique column, and every column is to be checked. */
  predicate PrimaryKeyOnly(columns: seq<ColumnDef>, validation: ColumnValidation) {
    && validation.All?
    && PrimaryKeyIndex(columns).Some?
    && forall i | 0 <= i < |columns| :: columns[i].unique != Some(Unique(false))
  }

  // ----- what the two paths accept -----

  /** The primary-key path looks every new key up in the store; rows without the column are skipped. */
  ghost predicate LookupAccepts(table: Table, p: nat, rows: seq<Row>) {
    forall i | 0 <= i < |rows| && p < |rows[i]| :: ToKey(rows[i][p]).Ok? && ToKey(rows[i][p]).value !in table.rows
  }

  /** No stored row holds one of the new keys. */
  ghost predicate NewToTable(table: Table, c: nat, rows: seq<Row>) {
    forall k | k in table.rows ::
      Usable(table.rows[k], c) &&
      (KeyAt(table.rows[k], c).None? || !HoldsKey(rows, c, KeyAt(table.rows[k], c)))
  }

  /** The scanning path compares new rows with each other and with every stored row. */
  ghost predicate ScanAccepts(table: Table, columns: seq<nat>, rows: seq<Row>) {
    && (forall c | c in columns :: DistinctKeys(rows, c))
    && (forall c | c in columns :: NewToTable(table, c, rows))
  }

  ghost predicate BatchAccepts(table: Table, validation: ColumnValidation, rows: seq<Row>) {
    var columns := table.schema.columns;
    if PrimaryKeyOnly(columns, validation) then LookupAccepts(table, PrimaryKeyIndex(columns).value, rows)
    else ScanAccepts(table, UniqueColumns(columns, validation), rows)
  }

  // ----- unique constraints -----

  datatype UniqueConstraint = UniqueConstraint(columnIndex: nat, keys: set<Key>) {
    function Check(value: Value): Result<Key> {
      var key :- ToKey(value);
      if Canonical(key) in keys then Err(Error("duplicate entry for unique column")) else Ok(key)
    }

    function Add(value: Value): Result<UniqueConstraint> {
      var key :- Check(value);
      if key.None? then Ok(this) else Ok(UniqueConstraint(columnIndex, keys + {Canonical(key)}))
    }
  }

  /** The constraint remembers exactly the non-null keys of the column in the rows. */
  ghost predicate Remembers(constraint: UniqueConstraint, rows: seq<Row>) {
    && DistinctKeys(rows, constraint.columnIndex)
    && (forall k :: k in constraint.keys <==> !k.None? && HoldsKey(rows, constraint.columnIndex, k))
  }

  lemma HoldsKeyAppend(rows: seq<Row>, row: Row, c: nat)
    requires Usable(row, c)
    ensures forall k :: HoldsKey(rows + [row], c, k) <==> HoldsKey(rows, c, k) || k == KeyAt(row, c)
  {
    var all := rows + [row];
    forall k ensures HoldsKey(all, c, k) <==> HoldsKey(rows, c, k) || k == KeyAt(row, c) {
      if k == KeyAt(row, c) { assert all[|rows|] == row; }
      if HoldsKey(rows, c, k) {
        var i :| 0 <= i < |rows| && Usable(rows[i], c) && KeyAt(rows[i], c) == k;
        assert all[i] == rows[i];
      }
    }
  }

  /** Adding one row succeeds exactly when its key is new, and then the constraint remembers it too. */
  lemma AddRow(constraint: UniqueConstraint, rows: seq<Row>, row: Row)
    requires Remembers(constraint, rows)
    ensures var c := constraint.columnIndex;
            DistinctKeys(rows + [row], c) <==> c < |row| && constraint.Add(row[c]).Ok?
    ensures var c := constraint.columnIndex;
            c < |row| && constraint.Add(row[c]).Ok? ==>
              constraint.Add(row[c]).value.columnIndex == c && Remembers(constraint.Add(row[c]).value, rows + [row])
  {
    hide Canonical;
    var c, all := constraint.columnIndex, rows + [row];
    if Usable(row, c) {
      var key := KeyAt(row, c);
      HoldsKeyAppend(rows, row, c);
      if key in constraint.keys {
        var i :| 0 <= i < |rows| && Usable(rows[i], c) && KeyAt(rows[i], c) == key;
        assert all[i] == rows[i] && KeyAt(all[i], c) == KeyAt(all[|rows|], c);
      } else {
        forall i, j | 0 <= i < j < |all| && KeyAt(all[i], c) == KeyAt(all[j], c) ensures KeyAt(all[i], c).None? {
          if j == |rows| { assert HoldsKey(rows, c, key); }
        }
      }
    } else {
      assert all[|rows|] == row;
    }
  }

  lemma DistinctPrefix(rows: seq<Row>, c: nat, n: nat)
    requires n <= |rows|
    ensures DistinctKeys(rows, c) ==> DistinctKeys(rows[..n], c)
  {
  }

  /** One constraint from all new rows (the inner fold of `create_unique_constraints`). */
  method CollectKeys(c: nat, rows: seq<Row>) returns (r: Result<UniqueConstraint>)
    ensures r.Ok? <==> DistinctKeys(rows, c)
    ensures r.Ok? ==> r.value.columnIndex == c && Remembers(r.value, rows)
  {
    var constraint := UniqueConstraint(c, {});
    for i := 0 to |rows|
      invariant constraint.columnIndex == c && Remembers(constraint, rows[..i])
    {
      assert rows[..i + 1] == rows[..i] + [rows[i]];
      AddRow(constraint, rows[..i], rows[i]);
      DistinctPrefix(rows, c, i + 1);
      if c >= |rows[i]| {
        return Err(Error("conflict! storage row has no column"));
      }
      var next := constraint.Add(rows[i][c]);
      if next.Err? {
        return Err(next.error);
      }
      constraint := next.value;
    }
    assert rows[..|rows|] == rows;
    return Ok(constraint);
  }

  method CreateUniqueConstraints(columns: seq<nat>, rows: seq<Row>) returns (r: Result<seq<UniqueConstraint>>)
    ensures r.Ok? <==> forall c | c in columns :: DistinctKeys(rows, c)
    ensures r.Ok? ==> |r.value| == |columns| &&
                      forall i | 0 <= i < |columns| ::
                        r.value[i].columnIndex == columns[i] && Remembers(r.value[i], rows)
  {
    var constraints: seq<UniqueConstraint> := [];
    for i := 0 to |columns|
      invariant |constraints| == i
      invariant forall j | 0 <= j < i :: constraints[j].columnIndex == columns[j] && Remembers(constraints[j], rows)
    {
      var constraint := CollectKeys(columns[i], rows);
      if constraint.Err? {
        assert columns[i] in columns;
        return Err(constraint.error);
      }
      constraints := constraints + [constraint.value];
    }
    return Ok(constraints);
  }

  /** A stored row passes a constraint exactly when it is no obstacle to the new rows. */
  lemma CheckStored(constraint: UniqueConstraint, rows: seq<Row>, row: Row)
    requires Remembers(constraint, rows)
    ensures var c := constraint.columnIndex;
            c < |row| && constraint.Check(row[c]).Ok? <==>
            Usable(row, c) && (KeyAt(row, c).None? || !HoldsKey(rows, c, KeyAt(row, c)))
  {
  }

  /** Check one stored row against every constraint. */
  method CheckRow(constraints: seq<UniqueConstraint>, row: Row) returns (r: Result<()>)
    ensures r.Ok? <==> Passes(constraints, row)
  {
    for j := 0 to |constraints|
      invariant forall i | 0 <= i < j ::
          constraints[i].columnIndex < |row| && constraints[i].Check(row[constraints[i].columnIndex]).Ok?
    {
      var c := constraints[j].columnIndex;
      if c >= |row| {
        return Err(Error("conflict! storage row has no column"));
      }
      var checked := constraints[j].Check(row[c]);
      if checked.Err? {
        return Err(checked.error);
      }
    }
    return Ok(());
  }

  ghost predicate Passes(constraints: seq<UniqueConstraint>, row: Row) {
    forall j | 0 <= j < |constraints| ::
      constraints[j].columnIndex < |row| && constraints[j].Check(row[constraints[j].columnIndex]).Ok?
  }

  lemma AllPassMeansNew(table: Table, columns: seq<nat>, rows: seq<Row>, constraints: seq<UniqueConstraint>)
    requires |constraints| == |columns|
    requires forall i | 0 <= i < |columns| ::
        constraints[i].columnIndex == columns[i] && Remembers(constraints[i], rows)
    ensures (forall k | k in table.rows :: Passes(constraints, table.rows[k])) <==>
            (forall c | c in columns :: NewToTable(table, c, rows))
  {
    if forall k | k in table.rows :: Passes(constraints, table.rows[k]) {
      forall c, k | c in columns && k in table.rows
        ensures Usable(table.rows[k], c) &&
                (KeyAt(table.rows[k], c).None? || !HoldsKey(rows, c, KeyAt(table.rows[k], c)))
      {
        var i :| 0 <= i < |columns| && columns[i] == c;
        CheckStored(constraints[i], rows, table.rows[k]);
      }
    }
    if forall c | c in columns :: NewToTable(table, c, rows) {
      forall k, j | k in table.rows && 0 <= j < |constraints|
        ensures var c := constraints[j].columnIndex;
                c < |table.rows[k]| && constraints[j].Check(table.rows[k][c]).Ok?
      {
        assert columns[j] in columns;
        CheckStored(constraints[j], rows, table.rows[k]);
      }
    }
  }

  /** Scan the table and check every row against every constraint. */
  method CheckTable(constraints: seq<UniqueConstraint>, table: Table) returns (r: Result<()>)
    ensures r.Ok? <==> forall k | k in table.rows :: Passes(constraints, table.rows[k])
  {
    hide Scan;
    var scanned := Scan(table.rows);
    for i := 0 to |scanned|
      invariant forall j | 0 <= j < i :: Passes(constraints, scanned[j].1)
    {
      ScanEntry(table.rows, i);
      var checked := CheckRow(constraints, scanned[i].1);
      if checked.Err? {
        return Err(checked.error);
      }
    }
    forall k | k in table.rows ensures Passes(constraints, table.rows[k]) {
      var i := ScanIndex(table.rows, k);
    }
    return Ok(());
  }

  method ValidateByScan(table: Table, columns: seq<nat>, rows: seq<Row>) returns (r: Result<()>)
    ensures r.Ok? <==> ScanAccepts(table, columns, rows)
  {
    var created := CreateUniqueConstraints(columns, rows);
    if created.Err? {
      return Err(created.error);
    }
    var constraints := created.value;
    AllPassMeansNew(table, columns, rows, constraints);
    if constraints == [] {
      return Ok(());
    }
    r := CheckTable(constraints, table);
  }

  method ValidateByLookup(table: Table, p: nat, rows: seq<Row>) returns (r: Result<()>)
    ensures r.Ok? <==> LookupAccepts(table, p, rows)
  {
    for i := 0 to |rows|
      invariant forall j | 0 <= j < i && p < |rows[j]| ::
          ToKey(rows[j][p]).Ok? && ToKey(rows[j][p]).value !in table.rows
    {
      if p < |rows[i]| {
        var key := ToKey(rows[i][p]);
        if key.Err? {
          return Err(key.error);
        }
        if key.value in table.rows {
          return Err(Error("duplicate entry for primary_key field"));
        }
      }
    }
    return Ok(());
  }

  /** `validate_unique` accepts exactly the batches that `BatchAccepts` describes. */
  method ValidateUnique(table: Table, validation: ColumnValidation, rows: seq<Row>) returns (r: Result<()>)
    ensures r.Ok? <==> BatchAccepts(table, validation, rows)
  {
    var columns := table.schema.columns;
    var p := PrimaryKeyIndex(columns);
    var others := exists i | 0 <= i < |columns| :: columns[i].unique == Some(Unique(false));
    if validation.All? && p.Some? && !others {
      r := ValidateByLookup(table, p.value, rows);
    } else {
      r := ValidateByScan(table, UniqueColumns(columns, validation), rows);
    }
  }
}
