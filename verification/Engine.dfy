/** The engine over a storage that is changed in place: row operations, transactions, statements and
  scripts (core/src/executor/execute.rs, insert.rs, update.rs, delete.rs, core/src/glue.rs). */
module Engine {
  import opened Data
  import opened Store
  import opened Validate
  import opened Dml
  import opened Executor
  import opened Session

  /** How a transaction operation of the medium goes: well, or with an error before or after it took
    its effect. */
  datatype Fault = Healthy | Early | Late

  class Storage {
    const approx: (Value, Value) -> bool
    const snapshots: bool
    var tables: map<string, Table>
    var idCounter: Id
    var tx: Transaction
    /** How many more row operations the medium performs before it fails. */
    var operationsLeft: nat
    /** Where the next transaction operations fail, if at all. */
    var faults: seq<Fault>

    constructor (approx: (Value, Value) -> bool, snapshots: bool, db: Database, operations: nat, faults: seq<Fault>)
      ensures View() == State(db, Idle) && this.approx == approx && this.snapshots == snapshots
    {
      this.approx, this.snapshots := approx, snapshots;
      this.tables, this.idCounter, this.tx := db.tables, db.idCounter, Idle;
      this.operationsLeft, this.faults := operations, faults;
    }

    function Db(): Database
      reads this
    {
      Database(tables, idCounter)
    }

    function View(): State
      reads this
    {
      State(Db(), tx)
    }

    // ----- row operations -----

    /** `insert_data`, row by row until the medium fails. */
    method InsertData(t: string, rows: seq<(Key, Row)>) returns (r: Result<()>, ghost n: nat)
      requires t in tables
      modifies this`tables, this`operationsLeft
      ensures CanApply(old(Db()), t, Write(rows), n) && Db() == Apply(old(Db()), t, Write(rows), n)
      ensures r.Ok? <==> n == |rows|
    {
      var table := tables[t];
      n := 0;
      for i := 0 to |rows|
        invariant n == i && Db() == Apply(old(Db()), t, Write(rows), i)
        invariant t in tables && tables == old(tables)[t := tables[t]]
        invariant tables[t] == table.(rows := WriteRows(table.rows, rows[..i]))
      {
        if operationsLeft == 0 {
          return Err(Error("storage failure")), n;
        }
        operationsLeft := operationsLeft - 1;
        assert rows[..i + 1][..i] == rows[..i] && rows[..i + 1][i] == rows[i];
        tables := tables[t := tables[t].(rows := tables[t].rows[rows[i].0 := rows[i].1])];
        n := n + 1;
      }
      return Ok(()), n;
    }

    /** `append_data`: each row under the next generated key. */
    method AppendData(t: string, rows: seq<Row>) returns (r: Result<()>, ghost n: nat)
      requires t in tables
      modifies this`tables, this`idCounter, this`operationsLeft
      ensures CanApply(old(Db()), t, Append(rows), n) && Db() == Apply(old(Db()), t, Append(rows), n)
      ensures r.Ok? <==> n == |rows|
    {
      var table := tables[t];
      n := 0;
      for i := 0 to |rows|
        invariant n == i && old(idCounter) + i < ID_LIMIT && idCounter == old(idCounter) + i
        invariant t in tables && tables == old(tables)[t := tables[t]]
        invariant tables[t] == table.(rows := WriteRows(table.rows, UnderGeneratedKeys(rows[..i], old(idCounter))))
      {
        if operationsLeft == 0 || idCounter + 1 >= ID_LIMIT {
          return Err(Error("storage failure")), n;
        }
        operationsLeft := operationsLeft - 1;
        idCounter := idCounter + 1;
        ghost var keyed := UnderGeneratedKeys(rows[..i + 1], old(idCounter));
        assert keyed[..i] == UnderGeneratedKeys(rows[..i], old(idCounter));
        assert keyed[i] == (Key.I64(idCounter), rows[i]);
        tables := tables[t := tables[t].(rows := tables[t].rows[Key.I64(idCounter) := rows[i]])];
        n := n + 1;
      }
      return Ok(()), n;
    }

    /** `delete_data`, key by key. */
    method DeleteData(t: string, keys: seq<Key>) returns (r: Result<()>, ghost n: nat)
      requires t in tables
      modifies this`tables, this`operationsLeft
      ensures CanApply(old(Db()), t, Remove(keys), n) && Db() == Apply(old(Db()), t, Remove(keys), n)
      ensures r.Ok? <==> n == |keys|
    {
      var table := tables[t];
      n := 0;
      for i := 0 to |keys|
        invariant n == i
        invariant t in tables && tables == old(tables)[t := tables[t]]
        invariant tables[t] == table.(rows := RemoveRows(table.rows, keys[..i]))
      {
        if operationsLeft == 0 {
          return Err(Error("storage failure")), n;
        }
        operationsLeft := operationsLeft - 1;
        assert keys[..i + 1] == keys[..i] + [keys[i]];
        tables := tables[t := tables[t].(rows := tables[t].rows - {keys[i]})];
        n := n + 1;
      }
      return Ok(()), n;
    }

    // ----- statements -----

    /** `insert`: collect rows, validate, then write under primary keys or append. */
    method InsertRows(t: string, names: seq<string>, source: Source) returns (r: Result<Payload>)
      modifies this`tables, this`idCounter, this`operationsLeft
      ensures Step(approx, old(Db()), Insert(t, names, source), Db(), r)
    {
      hide BatchAccepts, ForeignKeysAccept, SourceRows, Apply;
      ghost var s := Insert(t, names, source);
      ghost var before := Db();
      if t !in tables {
        return Err(Error("table not found"));
      }
      var table := tables[t];
      var rows := SourceRows(Db(), table.schema.columns, names, source);
      if rows.Err? {
        return Err(rows.error);
      }
      var unique := ValidateUnique(table, All, rows.value);
      if unique.Err? {
        return Err(unique.error);
      }
      var references := ValidateForeignKeys(Db(), table.schema, rows.value);
      if references.Err? {
        return Err(references.error);
      }
      assert Accepts(approx, before, s);
      match PrimaryKeyIndex(table.schema.columns)
      case Some(p) =>
        AcceptedRowsAreKeyable(table, rows.value);
        var keyed := UnderPrimaryKey(rows.value, p);
        var written, n := InsertData(t, keyed);
        assert ChangeOf(approx, before, s) == Write(keyed);
        r := if written.Ok? then Ok(Inserted(|keyed|)) else Err(written.error);
      case None =>
        var appended, n := AppendData(t, rows.value);
        assert ChangeOf(approx, before, s) == Append(rows.value);
        r := if appended.Ok? then Ok(Inserted(|rows.value|)) else Err(appended.error);
    }

    /** The Update arm of `execute_inner`. */
    method UpdateRows(
        t: string, assignments: seq<Assignment>, selection: Option<Condition>)
      returns (r: Result<Payload>)
      modifies this`tables, this`operationsLeft
      ensures Step(approx, old(Db()), Update(t, assignments, selection), Db(), r)
    {
      hide BatchAccepts, Apply, Scan, Fetch, Assignable, Evaluable, RowAccepts;
      ghost var s := Update(t, assignments, selection);
      ghost var before := Db();
      if t !in tables {
        return Err(Error("table not found"));
      }
      var table := tables[t];
      var assignable := CheckAssignments(table.schema.columns, assignments);
      if assignable.Err? {
        return Err(assignable.error);
      }
      var rows := CollectUpdates(Db(), table, assignments, selection);
      if rows.Err? {
        return Err(rows.error);
      }
      var unique := ValidateUnique(table, SpecifiedColumns(Ids(assignments)), RowsOnly(rows.value));
      if unique.Err? {
        return Err(unique.error);
      }
      assert Accepts(approx, before, s);
      var written, n := InsertData(t, rows.value);
      assert ChangeOf(approx, before, s) == Write(rows.value);
      r := if written.Ok? then Ok(Updated(|rows.value|)) else Err(written.error);
    }

    /** `delete`. */
    method DeleteRows(t: string, selection: Option<Condition>) returns (r: Result<Payload>)
      modifies this`tables, this`operationsLeft
      ensures Step(approx, old(Db()), Delete(t, selection), Db(), r)
    {
      hide Apply, Scan, Fetch, Evaluable, Deletable;
      ghost var s := Delete(t, selection);
      ghost var before := Db();
      if t !in tables {
        return Err(Error("table not found"));
      }
      var keys := CollectDeletions(approx, Db(), t, selection);
      if keys.Err? {
        return Err(keys.error);
      }
      assert Accepts(approx, before, s);
      var removed, n := DeleteData(t, keys.value);
      assert ChangeOf(approx, before, s) == Remove(keys.value);
      r := if removed.Ok? then Ok(Payload.Deleted(|keys.value|)) else Err(removed.error);
    }

    method RunStatement(statement: Statement) returns (r: Result<Payload>)
      modifies this`tables, this`idCounter, this`operationsLeft
      ensures Step(approx, old(Db()), statement, Db(), r)
    {
      match statement
      case Insert(t, names, source) => r := InsertRows(t, names, source);
      case Update(t, assignments, selection) => r := UpdateRows(t, assignments, selection);
      case Delete(t, selection) => r := DeleteRows(t, selection);
    }

    // ----- transactions -----

    method NextFault() returns (fault: Fault)
      modifies this`faults
    {
      if faults == [] { return Healthy; }
      fault, faults := faults[0], faults[1..];
    }

    method BeginTransaction(autocommit: bool) returns (r: Result<bool>)
      modifies this`tx, this`faults
      ensures BeginStep(snapshots, old(View()), autocommit, View(), r)
    {
      if !snapshots {
        return if autocommit then Ok(false) else Err(Error("transaction is not supported"));
      }
      match tx {
        case Open(_, current) =>
          return if autocommit then Ok(current) else Err(Error("nested transaction is not supported"));
        case Idle =>
          var fault := NextFault();
          if !fault.Healthy? { return Err(Error("transaction could not be registered")); }
          tx := Open(Db(), autocommit);
          return Ok(autocommit);
      }
    }

    method CommitTransaction() returns (r: Result<()>)
      modifies this`tx, this`faults
      ensures CommitStep(snapshots, old(View()), View(), r)
    {
      if !snapshots { return Ok(()); }
      if tx.Idle? { return Err(Error("no transaction to commit")); }
      var fault := NextFault();
      if fault.Early? { return Err(Error("lock could not be released")); }
      tx := Idle;
      return if fault.Late? then Err(Error("garbage could not be collected")) else Ok(());
    }

    method RollbackTransaction() returns (r: Result<()>)
      modifies this`tables, this`idCounter, this`tx, this`faults
      ensures RollbackStep(snapshots, old(View()), View(), r)
    {
      if !snapshots { return Ok(()); }
      match tx {
        case Idle => return Err(Error("no transaction to rollback"));
        case Open(saved, _) =>
          var fault := NextFault();
          if fault.Early? { return Err(Error("rows could not be restored")); }
          tables, idCounter := saved.tables, saved.idCounter;
          if fault.Late? { return Err(Error("lock could not be released")); }
          tx := Idle;
          return Ok(());
      }
    }

    // ----- commands and scripts -----

    /** `execute` for a statement: autocommit around it unless a transaction is open. */
    method ExecuteStatement(statement: Statement) returns (r: Result<Payload>)
      modifies this`tables, this`idCounter, this`tx, this`operationsLeft, this`faults
      ensures StatementStep(approx, snapshots, old(View()), statement, View(), r)
    {
      hide Step;
      var autocommit := BeginTransaction(true);
      ghost var inside := Inside(autocommit, Db(), Err(Error("")), Ok(()));
      if autocommit.Err? {
        r := Err(autocommit.error);
        assert StatementVia(approx, snapshots, old(View()), statement, View(), r, inside);
        return;
      }
      ghost var s1 := View();
      r := RunStatement(statement);
      inside := inside.(db := Db(), result := r);
      if autocommit.value {
        if r.Ok? {
          var committed := CommitTransaction();
          inside := inside.(closed := committed);
          if committed.Err? { r := Err(committed.error); }
        } else {
          var restored := RollbackTransaction();
          inside := inside.(closed := restored);
          if restored.Err? { r := Err(restored.error); }
        }
      }
      assert BeginStep(snapshots, old(View()), true, s1, inside.begun);
      assert StatementVia(approx, snapshots, old(View()), statement, View(), r, inside);
    }

    /** `execute`: transaction commands go straight to the storage. */
    method ExecuteCommand(c: Command) returns (r: Result<Reply>)
      modifies this`tables, this`idCounter, this`tx, this`operationsLeft, this`faults
      ensures CommandStep(approx, snapshots, old(View()), c, View(), r)
    {
      hide StatementStep;
      match c
      case Execute(statement) =>
        var payload := ExecuteStatement(statement);
        r := match payload case Ok(p) => Ok(Rows(p)) case Err(e) => Err(e);
      case StartTransaction =>
        var begun := BeginTransaction(false);
        r := if begun.Ok? then Ok(Started) else Err(begun.error);
      case Commit =>
        var committed := CommitTransaction();
        r := if committed.Ok? then Ok(Committed) else Err(committed.error);
      case Rollback =>
        var rolledBack := RollbackTransaction();
        r := if rolledBack.Ok? then Ok(RolledBack) else Err(rolledBack.error);
    }

    /** `execute_with_params`: plan the whole script first; if that fails nothing runs.  Then run the
      commands until the first failure. */
    method ExecuteScript(plan: (Database, string) -> Result<Command>, script: seq<string>)
      returns (r: Result<seq<Reply>>, ghost trace: seq<State>, ghost done: seq<Reply>)
      modifies this`tables, this`idCounter, this`tx, this`operationsLeft, this`faults
      ensures PlanAll(plan, old(Db()), script).Err? ==> r.Err? && View() == old(View())
      ensures PlanAll(plan, old(Db()), script).Ok? ==>
                && ScriptRun(approx, snapshots, trace, PlanAll(plan, old(Db()), script).value, done, r)
                && trace[0] == old(View()) && trace[|trace| - 1] == View()
    {
      hide CommandStep;
      trace := [View()];
      var planned := PlanAll(plan, Db(), script);
      if planned.Err? {
        return Err(planned.error), trace, [];
      }
      var commands := planned.value;
      var replies: seq<Reply> := [];
      for i := 0 to |commands|
        invariant |replies| == i && |trace| == i + 1
        invariant trace[0] == old(View()) && trace[i] == View()
        invariant forall j | 0 <= j < i ::
            CommandStep(approx, snapshots, trace[j], commands[j], trace[j + 1], Ok(replies[j]))
      {
        var reply := ExecuteCommand(commands[i]);
        trace := trace + [View()];
        if reply.Err? {
          assert reply == Err(reply.error);
          return Err(reply.error), trace, replies;
        }
        replies := replies + [reply.value];
      }
      return Ok(replies), trace, replies;
    }
  }
}
