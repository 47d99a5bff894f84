/** The rows of VALUES (core/src/executor/select.rs). */
module ValuesLists {
  import opened Data
  import opened Expressions
  import opened ExpressionMeaning

  function Digits(n: nat): string {
    if n < 10 then ["0123456789"[n]] else Digits(n / 10) + ["0123456789"[n % 10]]
  }

  function Labels(n: nat): (r: seq<string>)
    ensures |r| == n
  {
    seq(n, i requires 0 <= i < n => "column" + Digits(i + 1))
  }

  function DigitOf(c: char): int { c as int - '0' as int }

  predicate IsDigit(c: char) { '0' <= c <= '9' }

  /** The number that decimal digits denote. */
  function ReadDigits(s: string): int {
    if s == [] then 0 else 10 * ReadDigits(s[..|s| - 1]) + DigitOf(s[|s| - 1])
  }

  lemma ReadAppend(s: string, c: char)
    ensures ReadDigits(s + [c]) == 10 * ReadDigits(s) + DigitOf(c)
  {
    assert (s + [c])[..|s|] == s;
  }

  lemma DigitsStep(n: nat)
    ensures Digits(n) == (if n < 10 then [] else Digits(n / 10)) + ["0123456789"[n % 10]]
  {
  }

  /** A number is written in decimal digits, without leading zeros. */
  lemma {:induction false} DigitsDenote(n: nat)
    ensures ReadDigits(Digits(n)) == n && Digits(n) != []
    ensures forall i | 0 <= i < |Digits(n)| :: IsDigit(Digits(n)[i])
    ensures Digits(n)[0] == '0' ==> n == 0
  {
    hide Digits, DigitOf, IsDigit;
    var init: string, last := if n < 10 then [] else Digits(n / 10), "0123456789"[n % 10];
    DigitsStep(n);
    LastDigit(n % 10);
    ReadAppend(init, last);
    if n >= 10 {
      DigitsDenote(n / 10);
      assert Digits(n)[0] == Digits(n / 10)[0];
    } else {
      assert Digits(n)[0] == last;
    }
  }

  lemma LastDigit(d: nat)
    requires d < 10
    ensures IsDigit("0123456789"[d]) && DigitOf("0123456789"[d]) == d && ("0123456789"[d] == '0' ==> d == 0)
  {
  }

  /** The columns of VALUES are named column1, column2 and so on, so no two names are equal. */
  lemma LabelsAreNumbered(n: nat, i: nat)
    requires i < n
    ensures |Labels(n)[i]| > 6 && Labels(n)[i][..6] == "column" && ReadDigits(Labels(n)[i][6..]) == i + 1
    ensures Labels(n)[i][6] != '0' && forall k | 6 <= k < |Labels(n)[i]| :: IsDigit(Labels(n)[i][k])
    ensures forall j | 0 <= j < n && j != i :: Labels(n)[j] != Labels(n)[i]
  {
    hide Digits;
    LabelNumber(n, i);
    forall j | 0 <= j < n && j != i ensures Labels(n)[j] != Labels(n)[i] { LabelNumber(n, j); }
  }

  lemma LabelNumber(n: nat, i: nat)
    requires i < n
    ensures Labels(n)[i] == "column" + Labels(n)[i][6..] && |Labels(n)[i]| > 6
    ensures ReadDigits(Labels(n)[i][6..]) == i + 1 && Labels(n)[i][6] != '0'
    ensures forall k | 6 <= k < |Labels(n)[i]| :: IsDigit(Labels(n)[i][k])
  {
    hide Digits;
    DigitsDenote(i + 1);
    assert Labels(n)[i] == "column" + Digits(i + 1);
    assert Labels(n)[i][6..] == Digits(i + 1);
  }

  /** The type of the first value of a column that is not NULL. */
  function ColumnType(rows: seq<Row>, c: nat): Option<DataType>
    requires forall i | 0 <= i < |rows| :: c < |rows[i]|
  {
    if rows == [] then Option.None
    else
      var n := |rows| - 1;
      var before := ColumnType(rows[..n], c);
      if before.Some? then before else GetType(rows[n][c])
  }

  /** One value: converted to the type of the column once that is fixed, else taken as it is. */
  function Cell(sem: Semantics, e: Expr, dataType: Option<DataType>): Result<Value> {
    var ev :- Eval(sem, NOTHING, e);
    if dataType.Some? then TryIntoValue(sem.parsing, ev, dataType.value, true)
    else AsValue(sem.parsing, ev)
  }

  /** What a list contributes to a column: before the type is known what the expression is worth, then
    what a nullable column of the type takes. */
  lemma CellExactlyWhen(sem: Semantics, e: Expr, dataType: Option<DataType>, v: Value)
    ensures var ev := Eval(sem, NOTHING, e);
            Cell(sem, e, dataType) == Ok(v) <==>
              && ev.Ok?
              && if dataType.Some? then Takes(sem.parsing, ev.value, dataType.value, true, v)
                 else Worth(sem.parsing, ev.value, v)
  {
    hide Takes, Worth, Eval, TryIntoValue, AsValue;
    var ev := Eval(sem, NOTHING, e);
    if ev.Ok? {
      if dataType.Some? { TakenExactlyWhen(sem.parsing, ev.value, dataType.value, true, v); }
      WorthExactlyWhen(sem.parsing, ev.value, v);
    }
  }

  /** The column has its first value that is not NULL in the row. */
  ghost predicate FirstValue(rows: seq<Row>, c: nat, i: nat) {
    i < |rows| && c < |rows[i]| && !rows[i][c].Null? && forall j | 0 <= j < i :: c < |rows[j]| && rows[j][c].Null?
  }

  ghost predicate FirstHasType(rows: seq<Row>, c: nat, t: Option<DataType>) {
    exists i: nat :: FirstValue(rows, c, i) && GetType(rows[i][c]) == t
  }

  lemma FirstHasTypeStays(rows: seq<Row>, row: Row, c: nat, t: Option<DataType>)
    requires FirstHasType(rows, c, t)
    ensures FirstHasType(rows + [row], c, t)
  {
    hide GetType;
    var i: nat :| FirstValue(rows, c, i) && GetType(rows[i][c]) == t;
    assert FirstValue(rows + [row], c, i);
  }

  lemma FirstHasTypeStarts(rows: seq<Row>, row: Row, c: nat)
    requires c < |row| && !row[c].Null? && forall i | 0 <= i < |rows| :: c < |rows[i]| && rows[i][c].Null?
    ensures FirstHasType(rows + [row], c, GetType(row[c]))
  {
    hide GetType;
    assert FirstValue(rows + [row], c, |rows|);
  }

  /** The type of a column is that of its first value that is not NULL. */
  lemma {:induction false} ColumnTypeIs(rows: seq<Row>, c: nat)
    requires forall i | 0 <= i < |rows| :: c < |rows[i]|
    ensures ColumnType(rows, c).None? <==> forall i | 0 <= i < |rows| :: rows[i][c].Null?
    ensures ColumnType(rows, c).Some? ==> FirstHasType(rows, c, ColumnType(rows, c))
  {
    hide FirstHasType, GetType;
    if rows != [] {
      var n := |rows| - 1;
      ColumnTypeIs(rows[..n], c);
      NullHasNoType(rows[n][c]);
      assert rows == rows[..n] + [rows[n]];
      if ColumnType(rows[..n], c).Some? {
        FirstHasTypeStays(rows[..n], rows[n], c, ColumnType(rows[..n], c));
      } else if !rows[n][c].Null? {
        FirstHasTypeStarts(rows[..n], rows[n], c);
      }
    }
  }

  ghost predicate Wide(rows: seq<Row>, width: nat) { forall i | 0 <= i < |rows| :: |rows[i]| == width }

  ghost predicate RowBuilt(
      sem: Semantics, exprs: seq<Expr>, before: seq<Row>, values: Row, width: nat, n: nat)
    requires Wide(before, width) && n <= width
  {
    && |exprs| == width && n <= |values|
    && forall c | 0 <= c < n :: Cell(sem, exprs[c], ColumnType(before, c)) == Ok(values[c])
  }

  /** The rows are those of the first lists, each value converted by the type that the rows before it fixed. */
  ghost predicate Built(sem: Semantics, lists: seq<seq<Expr>>, rows: seq<Row>, width: nat) {
    && |rows| <= |lists| && Wide(rows, width)
    && forall i | 0 <= i < |rows| :: RowBuilt(sem, lists[i], rows[..i], rows[i], width, width)
  }

  lemma BuiltAppend(sem: Semantics, lists: seq<seq<Expr>>, rows: seq<Row>, row: Row, width: nat)
    requires |rows| < |lists| && Built(sem, lists, rows, width) && |row| == width
    requires RowBuilt(sem, lists[|rows|], rows, row, width, width)
    ensures Built(sem, lists, rows + [row], width)
  {
    hide RowBuilt;
    var all := rows + [row];
    forall i | 0 <= i < |all| ensures RowBuilt(sem, lists[i], all[..i], all[i], width, width) {
      assert all[..i] == rows[..i];
      if i == |rows| { assert rows[..i] == rows; }
    }
  }

  /** The rows are determined by the lists. */
  lemma {:induction false} BuiltUnique(
      sem: Semantics, lists: seq<seq<Expr>>, rows: seq<Row>, others: seq<Row>, width: nat)
    requires Built(sem, lists, rows, width) && Built(sem, lists, others, width) && |rows| <= |others|
    ensures rows <= others
    decreases |rows|
  {
    hide Cell;
    if rows != [] {
      var n := |rows| - 1;
      assert forall i | 0 <= i < n :: rows[..n][..i] == rows[..i];
      BuiltUnique(sem, lists, rows[..n], others, width);
      assert rows[..n] == others[..n];
      assert RowBuilt(sem, lists[n], rows[..n], rows[n], width, width);
      assert RowBuilt(sem, lists[n], others[..n], others[n], width, width);
      assert rows[n] == others[n];
    }
  }

  /** `rows_with_labels`: succeeds exactly when all lists have one width and every value converts. */
  method RowsWithLabels(
      sem: Semantics, lists: seq<seq<Expr>>)
    returns (r: Result<seq<Row>>, labels: seq<string>)
    requires lists != []
    ensures labels == Labels(|lists[0]|)
    ensures r.Ok? ==> |r.value| == |lists| && Built(sem, lists, r.value, |lists[0]|)
    ensures r.Err? ==> forall rows | Built(sem, lists, rows, |lists[0]|) :: |rows| < |lists|
  {
    hide Cell, Labels;
    var width := |lists[0]|;
    labels := Labels(width);
    var types: seq<Option<DataType>> := seq(width, _ => Option.None);
    var rows: seq<Row> := [];
    for i := 0 to |lists|
      invariant |rows| == i && Built(sem, lists, rows, width)
      invariant |types| == width && forall c | 0 <= c < width :: types[c] == ColumnType(rows, c)
    {
      if |lists[i]| != width {
        WrongWidthFails(sem, lists, i, width);
        return Err(Error("number of values different")), labels;
      }
      var values: Row := [];
      ghost var before := types;
      for c := 0 to width
        invariant |values| == c && RowBuilt(sem, lists[i], rows, values, width, c)
        invariant |types| == width
        invariant forall k | 0 <= k < width ::
            types[k] == if k < c && before[k].None? then GetType(values[k]) else before[k]
      {
        var value := Cell(sem, lists[i][c], types[c]);
        if value.Err? {
          BadCellFails(sem, lists, rows, width, c);
          return Err(value.error), labels;
        }
        if types[c].None? { types := types[c := GetType(value.value)]; }
        values := values + [value.value];
      }
      BuiltAppend(sem, lists, rows, values, width);
      assert (rows + [values])[..i] == rows;
      rows := rows + [values];
    }
    return Ok(rows), labels;
  }

  lemma BuiltWidth(sem: Semantics, lists: seq<seq<Expr>>, rows: seq<Row>, i: nat, width: nat)
    requires Built(sem, lists, rows, width)
    ensures i < |rows| ==> |lists[i]| == width
  {
    hide Cell;
    if i < |rows| { assert RowBuilt(sem, lists[i], rows[..i], rows[i], width, width); }
  }

  lemma WrongWidthFails(sem: Semantics, lists: seq<seq<Expr>>, i: nat, width: nat)
    requires i < |lists| && |lists[i]| != width
    ensures forall rows | Built(sem, lists, rows, width) :: |rows| < |lists|
  {
    hide Built;
    forall rows | Built(sem, lists, rows, width) ensures |rows| < |lists| {
      BuiltWidth(sem, lists, rows, i, width);
    }
  }

  lemma NextCellConverts(
      sem: Semantics, lists: seq<seq<Expr>>, rows: seq<Row>, others: seq<Row>, width: nat, c: nat)
    requires Built(sem, lists, rows, width) && Built(sem, lists, others, width) && c < width
    ensures |rows| < |others| ==> c < |lists[|rows|]| && Cell(sem, lists[|rows|][c], ColumnType(rows, c)).Ok?
  {
    hide Cell;
    var i := |rows|;
    if i < |others| {
      BuiltUnique(sem, lists, rows, others, width);
      assert others[..i] == rows;
      assert RowBuilt(sem, lists[i], others[..i], others[i], width, width);
    }
  }

  lemma BadCellFails(sem: Semantics, lists: seq<seq<Expr>>, rows: seq<Row>, width: nat, c: nat)
    requires |rows| < |lists| && Built(sem, lists, rows, width)
    requires c < width == |lists[|rows|]| && Cell(sem, lists[|rows|][c], ColumnType(rows, c)).Err?
    ensures forall others | Built(sem, lists, others, width) :: |others| < |lists|
  {
    hide Cell, Built;
    forall others | Built(sem, lists, others, width) ensures |others| < |lists| {
      NextCellConverts(sem, lists, rows, others, width, c);
    }
  }

  lemma {:induction false} TypeOfColumn(
      sem: Semantics, lists: seq<seq<Expr>>, rows: seq<Row>, width: nat, c: nat, n: nat)
    requires Built(sem, lists, rows, width) && c < width && n <= |rows|
    ensures forall i | 0 <= i < n && !rows[i][c].Null? :: GetType(rows[i][c]) == ColumnType(rows[..n], c)
    decreases n
  {
    hide GetType, Eval;
    if n > 0 {
      var k := n - 1;
      TypeOfColumn(sem, lists, rows, width, c, k);
      assert rows[..n][..k] == rows[..k];
      assert RowBuilt(sem, lists[k], rows[..k], rows[k], width, width);
      NullHasNoType(rows[k][c]);
      forall i | 0 <= i < k && !rows[i][c].Null? ensures ColumnType(rows[..k], c).Some? {
        NullHasNoType(rows[i][c]);
      }
    }
  }

  /** In every column all values that are not NULL have one type: that of the first of them. */
  lemma ColumnsHaveOneType(
      sem: Semantics, lists: seq<seq<Expr>>, rows: seq<Row>, width: nat, c: nat, i: nat, j: nat)
    requires Built(sem, lists, rows, width) && c < width
    requires i < |rows| && j < |rows| && !rows[i][c].Null? && !rows[j][c].Null?
    ensures GetType(rows[i][c]) == GetType(rows[j][c]) == ColumnType(rows, c)
  {
    hide GetType, Cell;
    TypeOfColumn(sem, lists, rows, width, c, |rows|);
    assert rows[..|rows|] == rows;
  }
}
