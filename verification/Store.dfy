/** The abstract store (core/src/store.rs): schemas, and rows under keys, scanned in key order. */
module Store {
  import opened Data
  import opened KeyOrder

  /** An expression that needs no row: its conversion to a column type (`evaluate_stateless` and the
    converting part of `try_into_value`). */
  type Scalar = DataType -> Result<Value>

  datatype Unique = Unique(isPrimary: bool)

  datatype ColumnDef = ColumnDef(
    name: string, dataType: DataType, nullable: bool, unique: Option<Unique>, default: Option<Scalar>)

  /** The only referential action of the source is NO ACTION. */
  datatype ForeignKey = ForeignKey(referencingColumn: string, referencedTable: string, referencedColumn: string)

  datatype Schema = Schema(columns: seq<ColumnDef>, foreignKeys: seq<ForeignKey>)

  datatype Table = Table(schema: Schema, rows: map<Key, Row>)

  const ID_LIMIT: nat := 0x8000_0000_0000_0000

  /** The counter of generated keys is a non-negative i64. */
  type Id = x: int | 0 <= x < ID_LIMIT

  datatype Database = Database(tables: map<string, Table>, idCounter: Id)

  function ColumnNames(columns: seq<ColumnDef>): (r: seq<string>)
    ensures |r| == |columns|
  {
    seq(|columns|, i requires 0 <= i < |columns| => columns[i].name)
  }

  /** The position of the first column of that name. */
  function ColumnIndex(columns: seq<ColumnDef>, name: string): (r: Option<nat>)
    ensures r.Some? ==> r.value < |columns| && columns[r.value].name == name
    ensures r.Some? ==> forall i | 0 <= i < r.value :: columns[i].name != name
    ensures r.None? ==> forall i | 0 <= i < |columns| :: columns[i].name != name
  {
    if columns == [] then Option.None
    else if columns[0].name == name then Some(0)
    else match ColumnIndex(columns[1..], name)
      case Some(i) => Some(i + 1)
      case None => Option.None
  }

  /** The position of the first PRIMARY KEY column. */
  function PrimaryKeyIndex(columns: seq<ColumnDef>): (r: Option<nat>)
    ensures r.Some? ==> r.value < |columns| && columns[r.value].unique == Some(Unique(true))
    ensures r.Some? ==> forall i | 0 <= i < r.value :: columns[i].unique != Some(Unique(true))
    ensures r.None? ==> forall i | 0 <= i < |columns| :: columns[i].unique != Some(Unique(true))
  {
    if columns == [] then Option.None
    else if columns[0].unique == Some(Unique(true)) then Some(0)
    else match PrimaryKeyIndex(columns[1..])
      case Some(i) => Some(i + 1)
      case None => Option.None
  }

  /** The value of a named column in a row, which may be shorter than its schema. */
  function GetValue(columns: seq<ColumnDef>, row: Row, name: string): Option<Value> {
    match ColumnIndex(columns, name)
    case Some(i) => if i < |row| then Some(row[i]) else Option.None
    case None => Option.None
  }

  // ----- scanning in key order -----

  predicate IsLeast(k: Key, keys: set<Key>) {
    k in keys && forall k' | k' in keys :: Le(k, k')
  }

  lemma {:induction false} LeastExists(keys: set<Key>) returns (k: Key)
    requires keys != {}
    ensures IsLeast(k, keys)
  {
    var x :| x in keys;
    var rest := keys - {x};
    CmpAntisymmetric(x, x);
    if rest == {} {
      k := x;
      assert keys == {x};
    } else {
      var y := LeastExists(rest);
      CmpAntisymmetric(x, y);
      k := if Le(x, y) then x else y;
      forall k' | k' in keys ensures Le(k, k') {
        if k' != x {
          assert k' in rest;
          if k == x { CmpTransitive(x, y, k'); }
        }
      }
    }
  }

  lemma LeastUnique(keys: set<Key>)
    ensures forall a, b | IsLeast(a, keys) && IsLeast(b, keys) :: a == b
  {
    forall a, b | IsLeast(a, keys) && IsLeast(b, keys) ensures a == b {
      CmpAntisymmetric(a, b);
    }
  }

  function LeastKey(keys: set<Key>): (k: Key)
    requires keys != {}
    ensures IsLeast(k, keys)
  {
    assert exists k :: IsLeast(k, keys) by { var k := LeastExists(keys); }
    LeastUnique(keys);
    var k :| k in keys && IsLeast(k, keys);
    k
  }

  /** `scan_data`: all rows with their keys, in key order. */
  function Scan(rows: map<Key, Row>): seq<(Key, Row)>
    decreases |rows.Keys|
  {
    if rows.Keys == {} then []
    else
      var k := LeastKey(rows.Keys);
      assert (rows - {k}).Keys == rows.Keys - {k};
      [(k, rows[k])] + Scan(rows - {k})
  }

  /** The sequence lists exactly the rows of the map, in strictly increasing key order. */
  ghost predicate Lists(r: seq<(Key, Row)>, rows: map<Key, Row>) {
    && (forall i | 0 <= i < |r| :: r[i].0 in rows && rows[r[i].0] == r[i].1)
    && (forall i, j | 0 <= i < j < |r| :: Cmp(r[i].0, r[j].0) == Less && r[i].0 != r[j].0)
    && (forall k | k in rows :: (k, rows[k]) in r)
  }

  lemma {:induction false} ScanListsRows(rows: map<Key, Row>)
    ensures Lists(Scan(rows), rows)
    ensures |Scan(rows)| == |rows|
    decreases |rows.Keys|
  {
    hide Lists;
    if rows.Keys == {} {
      NothingListed(rows);
    } else {
      var k := LeastKey(rows.Keys);
      var rest := rows - {k};
      assert rest.Keys == rows.Keys - {k};
      ScanListsRows(rest);
      PrependLeast(rows, k, Scan(rest));
    }
  }

  lemma NothingListed(rows: map<Key, Row>)
    requires rows.Keys == {}
    ensures Lists([], rows)
  {
  }

  lemma PrependLeast(rows: map<Key, Row>, k: Key, tail: seq<(Key, Row)>)
    requires IsLeast(k, rows.Keys) && Lists(tail, rows - {k})
    ensures Lists([(k, rows[k])] + tail, rows)
  {
    hide Cmp;
    var all := [(k, rows[k])] + tail;
    forall i, j | 0 <= i < j < |all| ensures Cmp(all[i].0, all[j].0) == Less && all[i].0 != all[j].0 {
      if i == 0 { StrictlyLeast(k, rows.Keys, tail[j - 1].0); }
    }
    forall k' | k' in rows ensures (k', rows[k']) in all {
      if k' != k { assert k' in rows - {k}; }
    }
  }

  lemma StrictlyLeast(k: Key, keys: set<Key>, k': Key)
    requires IsLeast(k, keys) && k' in keys && k' != k
    ensures Cmp(k, k') == Less
  {
    CmpAntisymmetric(k, k');
  }

  lemma ScanEntry(rows: map<Key, Row>, i: nat)
    requires i < |Scan(rows)|
    ensures Scan(rows)[i].0 in rows && rows[Scan(rows)[i].0] == Scan(rows)[i].1
  {
    ScanListsRows(rows);
  }

  lemma ScanIndex(rows: map<Key, Row>, k: Key) returns (i: nat)
    requires k in rows
    ensures i < |Scan(rows)| && Scan(rows)[i] == (k, rows[k])
  {
    ScanListsRows(rows);
    i :| 0 <= i < |Scan(rows)| && Scan(rows)[i] == (k, rows[k]);
  }

  // ----- writing rows -----

  /** `insert_data` row by row: a later row replaces an earlier one under the same key. */
  function WriteRows(rows: map<Key, Row>, changes: seq<(Key, Row)>): map<Key, Row> {
    if changes == [] then rows
    else
      var last := changes[|changes| - 1];
      WriteRows(rows, changes[..|changes| - 1])[last.0 := last.1]
  }

  function RemoveRows(rows: map<Key, Row>, keys: seq<Key>): map<Key, Row> {
    map k | k in rows && k !in keys :: rows[k]
  }

  /** Of several rows written under one key the last one stays. */
  lemma {:induction false} LastWriteStays(rows: map<Key, Row>, changes: seq<(Key, Row)>, i: nat)
    requires i < |changes| && forall j | i < j < |changes| :: changes[j].0 != changes[i].0
    ensures changes[i].0 in WriteRows(rows, changes) && WriteRows(rows, changes)[changes[i].0] == changes[i].1
  {
    if i < |changes| - 1 { LastWriteStays(rows, changes[..|changes| - 1], i); }
  }

  /** Every row after the write was written, or was there before and its key was not written. */
  lemma {:induction false} WrittenRows(rows: map<Key, Row>, changes: seq<(Key, Row)>)
    ensures forall k :: k in WriteRows(rows, changes) <==>
                        k in rows || exists i | 0 <= i < |changes| :: changes[i].0 == k
    ensures forall k | k in WriteRows(rows, changes) ::
              || (k in rows && WriteRows(rows, changes)[k] == rows[k] &&
                  forall i | 0 <= i < |changes| :: changes[i].0 != k)
              || exists i | 0 <= i < |changes| :: changes[i] == (k, WriteRows(rows, changes)[k])
  {
    if changes != [] {
      var n := |changes| - 1;
      var last, init := changes[n], changes[..n];
      WrittenRows(rows, init);
      var before, after := WriteRows(rows, init), WriteRows(rows, changes);
      assert after == before[last.0 := last.1];
      forall k ensures k in after <==> k in rows || exists i | 0 <= i < |changes| :: changes[i].0 == k {
        if exists i | 0 <= i < |changes| :: changes[i].0 == k {
          var i :| 0 <= i < |changes| && changes[i].0 == k;
          assert i == n || (i < n && init[i].0 == k);
        }
      }
      forall k | k in after
        ensures (k in rows && after[k] == rows[k] && forall i | 0 <= i < |changes| :: changes[i].0 != k)
                || exists i | 0 <= i < |changes| :: changes[i] == (k, after[k])
      {
        if k == last.0 {
          assert changes[n] == (k, after[k]);
        } else if exists i | 0 <= i < |init| :: init[i] == (k, after[k]) {
          var i :| 0 <= i < |init| && init[i] == (k, after[k]);
          assert changes[i] == (k, after[k]);
        } else {
          assert k in rows && after[k] == rows[k];
          forall i | 0 <= i < |changes| ensures changes[i].0 != k {
            assert i == n || (i < n && changes[i] == init[i]);
          }
        }
      }
    }
  }
}
